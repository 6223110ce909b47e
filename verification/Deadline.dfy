/**
  When the supervisor of a matrix case may kill, read off the log of its calls: the limit of
  each pass, what the waiting loop keeps about its log, and what it has found out at its end.
 */
module Deadline {
  import opened Kernel

  const CASE_TIMEOUT_MS: nat := 12000
  const EOF_EXIT_GRACE_MS: nat := 5000
  const LAST_LOOKS: nat := 40

  /** What is known of the worker: not reaped yet, its wait status, or reaped with the status lost. */
  datatype Reap = Pending | Status(status: nat) | Lost

  /** What was learned of the worker is what `waitpid` answered. */
  predicate ReapedAs(es: seq<Event>, reap: Reap) {
    match reap
    case Pending => Statuses(es) == []
    case Status(status) => Statuses(es) == [status]
    case Lost => Statuses(es) == [] && NoChild in Answers(es)
  }

  // ---- The deadline, read off the log of one case ----

  /** The first reading of the clock. */
  function Start(es: seq<Event>): nat {
    if es != [] && es[0].Time? then es[0].at else 0
  }

  /** `eof_at`: the first reading after an end of file; 0 until then. */
  function NoticedAt(es: seq<Event>): nat {
    if |es| <= 1 then 0
    else
      var before, e := es[..|es| - 1], es[|es| - 1];
      if e.Time? && NoticedAt(before) == 0 && Eofs(before) != [] then e.at else NoticedAt(before)
  }

  /** When the worker will be killed, `eofAt` being 0 until end of file is noticed. */
  function Limit(deadline: nat, eofAt: nat): nat {
    if eofAt != 0 && eofAt + EOF_EXIT_GRACE_MS > deadline then eofAt + EOF_EXIT_GRACE_MS else deadline
  }

  function LimitAfter(es: seq<Event>): nat {
    Limit(Start(es) + CASE_TIMEOUT_MS, NoticedAt(es))
  }

  /** The limit of each pass of the waiting loop: each reading after the first begins one. */
  function Limits(es: seq<Event>): seq<nat> {
    if |es| <= 1 then []
    else Limits(es[..|es| - 1]) + if es[|es| - 1].Time? then [LimitAfter(es)] else []
  }

  /** Every reading came before its limit. */
  predicate InTime(es: seq<Event>) {
    |es| <= 1 || (InTime(es[..|es| - 1]) && (es[|es| - 1].Time? ==> es[|es| - 1].at < LimitAfter(es)))
  }

  /** The last reading, and no earlier one, came at its limit or later. */
  predicate Overdue(es: seq<Event>) {
    |es| > 1 &&
    var before, e := es[..|es| - 1], es[|es| - 1];
    if e.Time? then InTime(before) && e.at >= LimitAfter(es) else Overdue(before)
  }

  /** A SIGKILL comes at or after the deadline and, after an end of file, no earlier than its grace. */
  predicate KillsLate(es: seq<Event>) {
    es == [] ||
    var before, e := es[..|es| - 1], es[|es| - 1];
    && KillsLate(before)
    && (e.Killed? ==> e.at >= Start(es) + CASE_TIMEOUT_MS &&
                      (Eofs(before) != [] ==> e.at >= Eofs(before)[0] + EOF_EXIT_GRACE_MS))
  }

  lemma {:induction false} FirstEof(es: seq<Event>, j: nat)
    requires j < |es| && es[j].EndOfFile? && forall m :: 0 <= m < j ==> !es[m].EndOfFile?
    ensures Eofs(es) != [] && Eofs(es)[0] == es[j].at
    decreases |es|
  {
    var n := |es| - 1;
    if j < n {
      FirstEof(es[..n], j);
    } else {
      NoEof(es[..n]);
    }
  }

  lemma {:induction false} NoEof(es: seq<Event>)
    requires forall m :: 0 <= m < |es| ==> !es[m].EndOfFile?
    ensures Eofs(es) == []
  {
    if es != [] {
      NoEof(es[..|es| - 1]);
    }
  }

  /** Event by event: a SIGKILL comes 12 seconds after the first reading, and 5 seconds after the first end of file. */
  lemma {:induction false} KillTimes(es: seq<Event>, i: nat, j: nat)
    requires KillsLate(es) && es != [] && es[0].Time? && i < |es| && es[i].Killed?
    ensures es[i].at >= es[0].at + 12000
    ensures j < i && es[j].EndOfFile? && (forall m :: 0 <= m < j ==> !es[m].EndOfFile?) ==> es[i].at >= es[j].at + 5000
    decreases |es|
  {
    var n := |es| - 1;
    if i < n {
      KillTimes(es[..n], i, j);
    } else if j < i && es[j].EndOfFile? && (forall m :: 0 <= m < j ==> !es[m].EndOfFile?) {
      FirstEof(es[..n], j);
    }
  }

  predicate EofBefore(es: seq<Event>, j: nat) {
    exists m :: 0 <= m < j && m < |es| && es[m].EndOfFile?
  }

  /** Reading `j` is the one at which an end of file is noticed: the first that follows one, a reading of 0 aside. */
  predicate NoticesAt(es: seq<Event>, j: nat) {
    && 0 < j < |es| && es[j].Time? && EofBefore(es, j)
    && forall k :: 0 < k < j && es[k].Time? && EofBefore(es, k) ==> es[k].at == 0
  }

  lemma {:induction false} EofsMean(es: seq<Event>)
    ensures Eofs(es) != [] <==> EofBefore(es, |es|)
  {
    if es != [] {
      var n := |es| - 1;
      EofsMean(es[..n]);
      assert forall m :: 0 <= m < n ==> es[..n][m] == es[m];
      if es[n].EndOfFile? {
        assert EofBefore(es, |es|);
      }
    }
  }

  lemma EofBeforeIn(es: seq<Event>, n: nat, j: nat)
    requires j <= n <= |es|
    ensures EofBefore(es[..n], j) <==> EofBefore(es, j)
  {
    assert forall m :: 0 <= m < n ==> es[..n][m] == es[m];
    if m :| 0 <= m < j && es[m].EndOfFile? {
      assert es[..n][m].EndOfFile?;
    }
  }

  /** Until the end of file is noticed no reading but one of 0 follows it; then `eof_at` is the reading that notices it. */
  lemma {:induction false} NoticedMeans(es: seq<Event>)
    ensures NoticedAt(es) == 0 ==> forall k :: 0 < k < |es| && es[k].Time? && EofBefore(es, k) ==> es[k].at == 0
    ensures NoticedAt(es) != 0 ==> exists j: nat :: NoticesAt(es, j) && es[j].at == NoticedAt(es)
  {
    if |es| > 1 {
      var n := |es| - 1;
      NoticedMeans(es[..n]);
      EofsMean(es[..n]);
      EofBeforeIn(es, n, n);
      forall k | 0 <= k <= n ensures EofBefore(es[..n], k) <==> EofBefore(es, k) {
        EofBeforeIn(es, n, k);
      }
      assert forall k :: 0 <= k < n ==> es[..n][k] == es[k];
      if NoticedAt(es[..n]) != 0 {
        var j: nat :| NoticesAt(es[..n], j) && es[..n][j].at == NoticedAt(es[..n]);
        assert NoticesAt(es, j);
      } else if NoticedAt(es) != 0 {
        assert NoticesAt(es, n);
      }
    }
  }

  /** Reading `i` came within 12 seconds of the first, or within 5 of the reading that noticed an end of file. */
  predicate WithinLimit(es: seq<Event>, i: nat)
    requires i < |es| && es[i].Time? && es[0].Time?
  {
    es[i].at < es[0].at + 12000 ||
    exists j: nat :: 0 < j <= i && NoticesAt(es, j) && es[j].at != 0 && es[i].at < es[j].at + 5000
  }

  lemma LastWithin(es: seq<Event>)
    requires |es| > 1 && es[0].Time? && es[|es| - 1].Time?
    ensures es[|es| - 1].at < LimitAfter(es) <==> WithinLimit(es, |es| - 1)
  {
    NoticedMeans(es);
    var n := |es| - 1;
    if j: nat :| 0 < j <= n && NoticesAt(es, j) && es[j].at != 0 && es[n].at < es[j].at + 5000 {
      assert NoticedAt(es) != 0;
      var k: nat :| NoticesAt(es, k) && es[k].at == NoticedAt(es);
      assert k == j;
    }
  }

  /** In time means every reading after the first within its limit. */
  lemma {:induction false} InTimeMeans(es: seq<Event>, i: nat)
    requires InTime(es) && es != [] && es[0].Time? && 0 < i < |es| && es[i].Time?
    ensures WithinLimit(es, i)
    decreases |es|
  {
    var n := |es| - 1;
    if i == n {
      LastWithin(es);
    } else {
      InTimeMeans(es[..n], i);
      WithinPrefix(es, n, i);
    }
  }

  lemma WithinPrefix(es: seq<Event>, n: nat, i: nat)
    requires i < n <= |es| && es[0].Time? && es[i].Time?
    ensures WithinLimit(es[..n], i) <==> WithinLimit(es, i)
  {
    assert forall k :: 0 <= k < n ==> es[..n][k] == es[k];
    forall k | 0 <= k < n ensures EofBefore(es[..n], k) <==> EofBefore(es, k) {
      EofBeforeIn(es, n, k);
    }
    assert forall j: nat :: j < n ==> (NoticesAt(es[..n], j) <==> NoticesAt(es, j));
  }

  /** Overdue means the last reading is the first one past its limit. */
  lemma {:induction false} OverdueMeans(es: seq<Event>) returns (i: nat)
    requires Overdue(es) && es[0].Time?
    ensures 0 < i < |es| && es[i].Time? && !WithinLimit(es, i)
    ensures forall k :: 0 < k < i && es[k].Time? ==> WithinLimit(es, k)
    ensures forall k :: i < k < |es| ==> !es[k].Time?
    decreases |es|
  {
    var n := |es| - 1;
    if es[n].Time? {
      i := n;
      LastWithin(es);
      forall k | 0 < k < n && es[k].Time? ensures WithinLimit(es, k) {
        InTimeMeans(es[..n], k);
        WithinPrefix(es, n, k);
      }
    } else {
      i := OverdueMeans(es[..n]);
      WithinPrefix(es, n, i);
      forall k | 0 < k < i && es[k].Time? ensures WithinLimit(es, k) {
        WithinPrefix(es, n, k);
      }
    }
  }

  predicate Ascends(limits: seq<nat>) {
    forall i, j :: 0 <= i < j < |limits| ==> limits[i] <= limits[j]
  }

  predicate Among(limits: seq<nat>, a: nat, b: nat) {
    forall i :: 0 <= i < |limits| ==> limits[i] == a || limits[i] == b
  }

  /** Never decreases, and takes at most two values. */
  predicate MovesOnce(limits: seq<nat>) {
    Ascends(limits) && (limits != [] ==> Among(limits, limits[0], limits[|limits| - 1]))
  }

  /** Whatever is logged, the limit only ever moves from the deadline to one later time. */
  lemma LimitsMoveOnce(es: seq<Event>)
    ensures MovesOnce(Limits(es)) && Among(Limits(es), Start(es) + CASE_TIMEOUT_MS, LimitAfter(es))
  {
    hide Limits, LimitAfter;
    LimitsSoFar(es);
  }

  lemma {:induction false} LimitsSoFar(es: seq<Event>)
    ensures Ascends(Limits(es)) && Among(Limits(es), Start(es) + CASE_TIMEOUT_MS, LimitAfter(es))
    ensures Start(es) + CASE_TIMEOUT_MS <= LimitAfter(es)
  {
    if |es| > 1 {
      var before := es[..|es| - 1];
      LimitsSoFar(before);
      assert Start(before) == Start(es);
      assert LimitAfter(before) == LimitAfter(es) || LimitAfter(before) == Start(es) + CASE_TIMEOUT_MS;
      assert Limits(es) == Limits(before) || Limits(es) == Limits(before) + [LimitAfter(es)];
      hide LimitAfter, NoticedAt, Start, Limits;
    }
  }

  /** One more event, after the first. */
  lemma Observed(es: seq<Event>, e: Event)
    requires es != []
    ensures var now := es + [e];
            && Start(now) == Start(es)
            && NoticedAt(now) == (if e.Time? && NoticedAt(es) == 0 && Eofs(es) != [] then e.at else NoticedAt(es))
            && Limits(now) == Limits(es) + (if e.Time? then [LimitAfter(now)] else [])
            && (InTime(now) <==> InTime(es) && (e.Time? ==> e.at < LimitAfter(now)))
            && (Overdue(now) <==> if e.Time? then InTime(es) && e.at >= LimitAfter(now) else Overdue(es))
            && (KillsLate(now) <==>
                KillsLate(es) && (e.Killed? ==> e.at >= Start(es) + CASE_TIMEOUT_MS &&
                                                (Eofs(es) != [] ==> e.at >= Eofs(es)[0] + EOF_EXIT_GRACE_MS)))
  {
    assert (es + [e])[..|es|] == es;
    hide LimitAfter, Eofs;
  }

  /** Events without a kill leave the kills as late as they were. */
  lemma {:induction false} KillsLateKept(a: seq<Event>, b: seq<Event>)
    requires a != [] && KillsLate(a) && Kills(b) == []
    ensures KillsLate(a + b) && Start(a + b) == Start(a)
  {
    if b == [] {
      assert a + b == a;
    } else {
      var init, e := b[..|b| - 1], b[|b| - 1];
      assert b == init + [e] && a + b == (a + init) + [e];
      Logged(init, e);
      KillsLateKept(a, init);
      Observed(a + init, e);
    }
  }

  // ---- The waiting loop's book-keeping ----

  /**
    What is kept about the log while the loop waits, with `looks` passes still to look at the worker;
    `eofAt` is the loop's own variable.
   */
  predicate Waiting(es: seq<Event>, sawEof: bool, eofAt: nat, looks: nat, now: nat) {
    && es != [] && es[0].Time? && es[0].at <= now
    && Statuses(es) == [] && Kills(es) == [] && |Answers(es)| + looks == |Limits(es)|
    && InTime(es) && KillsLate(es)
    && eofAt == NoticedAt(es) && (Eofs(es) != [] <==> sawEof)
    && (sawEof ==> Eofs(es)[0] <= now && (eofAt != 0 ==> Eofs(es)[0] <= eofAt))
    && (eofAt != 0 ==> sawEof)
  }

  lemma WaitingStarts(start: nat)
    ensures Waiting([Time(start)], false, 0, 0, start)
  {
    NoEvents();
    Logged([], Time(start));
    assert [] + [Time(start)] == [Time(start)];
  }

  lemma WaitingLater(es: seq<Event>, sawEof: bool, eofAt: nat, looks: nat, now: nat, later: nat)
    requires Waiting(es, sawEof, eofAt, looks, now) && now <= later
    ensures Waiting(es, sawEof, eofAt, looks, later)
  {
  }

  function Noticed(sawEof: bool, eofAt: nat, now: nat): nat {
    if sawEof && eofAt == 0 then now else eofAt
  }

  /** The reading at the top of a pass: in time, or overdue. */
  lemma PassBegins(es: seq<Event>, sawEof: bool, eofAt: nat, before: nat, now: nat)
    requires Waiting(es, sawEof, eofAt, 0, before) && now >= before
    ensures var pass := es + [Time(now)]; var noticed := Noticed(sawEof, eofAt, now);
            && LimitAfter(pass) == Limit(es[0].at + CASE_TIMEOUT_MS, noticed)
            && (now < LimitAfter(pass) ==> Waiting(pass, sawEof, noticed, 1, now))
            && (now >= LimitAfter(pass) ==> LateReading(pass, now))
            && (Eofs(pass) != [] <==> sawEof)
  {
    hide Start, NoticedAt, Limits, InTime, Overdue, KillsLate, Answers, Statuses, Kills, Eofs;
    StartIs(es);
    Logged(es, Time(now));
    Observed(es, Time(now));
  }

  lemma StartIs(es: seq<Event>)
    requires es != [] && es[0].Time?
    ensures Start(es) == es[0].at
  {
  }

  lemma EofMet(es: seq<Event>, sawEof: bool, eofAt: nat, now: nat, at: nat)
    requires Waiting(es, sawEof, eofAt, 1, now) && now <= at
    ensures Waiting(es + [EndOfFile(at)], true, eofAt, 1, at)
  {
    hide Start, NoticedAt, Limits, InTime, Overdue, KillsLate, Answers, Statuses, Kills, Eofs;
    Logged(es, EndOfFile(at));
    Observed(es, EndOfFile(at));
  }

  /** A look that found the worker gone, in time. */
  predicate Gone(es: seq<Event>, sawEof: bool, a: WaitAnswer) {
    && es != [] && es[0].Time? && Kills(es) == [] && InTime(es) && KillsLate(es) && (Eofs(es) != [] <==> sawEof)
    && Statuses(es) == (if a.Ended? then [a.status] else []) && a in Answers(es)
  }

  lemma Looked(es: seq<Event>, sawEof: bool, eofAt: nat, now: nat, a: WaitAnswer)
    requires Waiting(es, sawEof, eofAt, 1, now)
    ensures Gone(es + [Waited(a)], sawEof, a)
    ensures !a.Ended? ==> Waiting(es + [Waited(a)], sawEof, eofAt, 0, now)
  {
    hide Start, NoticedAt, Limits, InTime, Overdue, KillsLate, Answers, Statuses, Kills, Eofs;
    Logged(es, Waited(a));
    Observed(es, Waited(a));
  }

  /** The last reading was overdue; nothing was killed or reaped yet. */
  predicate LateReading(es: seq<Event>, now: nat) {
    && es != [] && es[0].Time? && Kills(es) == [] && Statuses(es) == [] && Overdue(es) && KillsLate(es)
    && |Answers(es)| + 1 == |Limits(es)|
    && now >= Start(es) + CASE_TIMEOUT_MS && (Eofs(es) != [] ==> now >= Eofs(es)[0] + EOF_EXIT_GRACE_MS)
  }

  predicate OnlyLooks(seen: seq<Event>) {
    seen == [] || (seen[|seen| - 1].Waited? && OnlyLooks(seen[..|seen| - 1]))
  }

  lemma {:induction false} LooksLog(seen: seq<Event>)
    requires OnlyLooks(seen)
    ensures Kills(seen) == [] && Eofs(seen) == [] && |Answers(seen)| == |seen|
  {
    if seen != [] {
      LooksLog(seen[..|seen| - 1]);
    }
  }

  /** Looking at the worker moves no limit. */
  lemma {:induction false} LooksKeep(es: seq<Event>, seen: seq<Event>)
    requires es != [] && OnlyLooks(seen)
    ensures var now := es + seen;
            && Start(now) == Start(es) && Limits(now) == Limits(es)
            && (Overdue(now) <==> Overdue(es)) && (KillsLate(now) <==> KillsLate(es))
  {
    hide Start, NoticedAt, Limits, InTime, Overdue, KillsLate, Eofs;
    if seen == [] {
      assert es + seen == es;
    } else {
      var init, e := seen[..|seen| - 1], seen[|seen| - 1];
      assert es + seen == (es + init) + [e];
      LooksKeep(es, init);
      Observed(es + init, e);
    }
  }

  /** What the waiting loop has done when it sends the SIGKILL: forty looks after the overdue reading. */
  predicate KilledAfter(es: seq<Event>) {
    es != [] && es[|es| - 1].Killed? &&
    var before := es[..|es| - 1];
    && before != [] && before[0].Time? && Kills(before) == [] && Statuses(before) == []
    && Overdue(before) && |Answers(before)| + 1 == |Limits(before)| + 40
    && KillsLate(es)
  }

  lemma LastLooks(es: seq<Event>, now: nat, seen: seq<Event>, reap: Reap, at: nat)
    requires LateReading(es, now) && OnlyLooks(seen) && ReapedAs(seen, reap) && !reap.Lost? && now <= at
    requires reap.Pending? ==> |seen| == LAST_LOOKS
    ensures var all := es + seen;
            && all != [] && all[0] == es[0] && Kills(all) == [] && Overdue(all) && KillsLate(all) && ReapedAs(all, reap)
            && Eofs(all) == Eofs(es)
    ensures reap.Pending? ==> var end := es + seen + [Killed(at)];
                              KilledAfter(end) && ReapedAs(end, Pending) && Eofs(end) == Eofs(es)
  {
    hide Start, NoticedAt, Limits, InTime, Overdue, KillsLate, Answers, Statuses, Kills, Eofs;
    LooksLog(seen);
    LooksKeep(es, seen);
    LogConcat(es, seen);
    var all := es + seen;
    Logged(all, Killed(at));
    Observed(all, Killed(at));
    assert (all + [Killed(at)])[..|all|] == all;
  }

  /** What one pass logs after its reading: the end of file when it meets one, then its look at the worker. */
  predicate Look(seen: seq<Event>, a: WaitAnswer, met: bool, at: nat) {
    seen == if met then [EndOfFile(at), Waited(a)] else [Waited(a)]
  }

  lemma PassLooks(pass: seq<Event>, sawEof: bool, eofAt: nat, now: nat,
                  seen: seq<Event>, a: WaitAnswer, met: bool, at: nat)
    requires Waiting(pass, sawEof, eofAt, 1, now) && Look(seen, a, met, at) && now <= at
    ensures Gone(pass + seen, sawEof || met, a)
    ensures !a.Ended? ==> Waiting(pass + seen, sawEof || met, eofAt, 0, at)
  {
    hide Waiting, Gone;
    if met {
      EofMet(pass, sawEof, eofAt, now, at);
      Looked(pass + [EndOfFile(at)], true, eofAt, at, a);
      assert pass + [EndOfFile(at)] + [Waited(a)] == pass + seen;
    } else {
      WaitingLater(pass, sawEof, eofAt, 1, now, at);
      Looked(pass, sawEof, eofAt, at, a);
    }
  }

  /** What the waiting loop has found out when it ends: the worker is reaped, or killed. */
  predicate Finished(es: seq<Event>, sawEof: bool, reap: Reap) {
    && es != [] && es[0].Time? && ReapedAs(es, reap) && (Eofs(es) != [] <==> sawEof)
    && (if reap.Pending? then KilledAfter(es) else Kills(es) == [] && (InTime(es) || Overdue(es)) && KillsLate(es))
  }

  /** The waiting loop failed: a call of the harness itself did, and nothing was killed. */
  predicate Failed(es: seq<Event>, sawEof: bool, pollBroke: bool) {
    && es != [] && es[0].Time? && Kills(es) == [] && InTime(es) && (Eofs(es) != [] <==> sawEof)
    && (pollBroke || WaitFail in Answers(es))
  }

  lemma WaitingFails(pass: seq<Event>, sawEof: bool, eofAt: nat, now: nat)
    requires Waiting(pass, sawEof, eofAt, 1, now)
    ensures Failed(pass, sawEof, true)
  {
  }

  lemma GoneIs(es: seq<Event>, sawEof: bool, a: WaitAnswer, pollBroke: bool)
    requires Gone(es, sawEof, a)
    ensures a.Ended? ==> Finished(es, sawEof, Status(a.status))
    ensures a == NoChild ==> Finished(es, sawEof, Lost)
    ensures a == WaitFail ==> Failed(es, sawEof, pollBroke)
  {
    hide InTime, Overdue, KillsLate, Kills, Eofs, Statuses, Answers;
  }
}
