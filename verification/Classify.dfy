/** `classify_full`, and what its verdicts are worth for a case that `run_case` carried through. */
module Classify {
  import opened Needle
  import opened Kernel
  import opened Capture
  import opened Deadline
  import opened Supervisor
  import Fnv

  const SIGSEGV: nat := 11

  datatype Verdict = Supported | Partial | Unavailable
  datatype Reason = NoReason | CaptureTimeout | NoEof | NoReap | Missing | Timeout | NoFork | Segv
    | Enosys | WrongExit | WrongOutput
  datatype Classified = Classified(verdict: Verdict, reason: Reason, functional: bool, output: bool, capture: bool)

  /** "applet not found", "not implemented" and "ENOSYS". */
  const NOT_FOUND: Bytes := [97, 112, 112, 108, 101, 116, 32, 110, 111, 116, 32, 102, 111, 117, 110, 100]
  const NOT_IMPLEMENTED: Bytes := [110, 111, 116, 32, 105, 109, 112, 108, 101, 109, 101, 110, 116, 101, 100]
  const ENOSYS: Bytes := [69, 78, 79, 83, 89, 83]

  /** The bytes of an ASCII text. */
  predicate Spells(b: Bytes, text: string) {
    |b| == |text| && forall i :: 0 <= i < |b| ==> b[i] as int == text[i] as int
  }

  /** The three texts that are taken for a complaint. */
  lemma Complaints()
    ensures Spells(NOT_FOUND, "applet not found") && Spells(NOT_IMPLEMENTED, "not implemented")
    ensures Spells(ENOSYS, "ENOSYS")
  {
    NotFoundSpells();
    NotImplementedSpells();
    hide NOT_FOUND, NOT_IMPLEMENTED;
  }

  lemma NotFoundSpells()
    ensures Spells(NOT_FOUND, "applet not found")
  {
  }

  lemma NotImplementedSpells()
    ensures Spells(NOT_IMPLEMENTED, "not implemented")
  {
  }

  /** `store_contains` */
  method StoreContains(store: Bytes, needle: Bytes) returns (found: bool)
    ensures found <==> needle != [] && Occurs(needle, store)
  {
    if needle == [] || |store| < |needle| {
      return false;
    }
    var i := 0;
    while i + |needle| <= |store|
      invariant 0 <= i && forall j: nat :: j < i ==> !OccursAt(needle, store, j)
    {
      if store[i..i + |needle|] == needle {
        assert OccursAt(needle, store, i);
        return true;
      }
      i := i + 1;
    }
    return false;
  }

  ghost predicate SaysUnsupported(kept: Bytes) {
    Occurs(NOT_FOUND, kept) || Occurs(NOT_IMPLEMENTED, kept) || Occurs(ENOSYS, kept)
  }

  ghost function Classification(k: Case, res: CaseResult, kept: Bytes): Classified {
    if res.captureTimeout then Classified(Partial, CaptureTimeout, false, false, false)
    else if !res.sawEof then Classified(Partial, NoEof, false, false, false)
    else if !res.workerReaped then Classified(Partial, NoReap, false, false, false)
    else if res.exitCode == 127 || Occurs(NOT_FOUND, kept) then Classified(Unavailable, Missing, false, false, true)
    else if res.exitCode == 124 then Classified(Unavailable, Timeout, false, false, true)
    else if res.exitCode == 125 then Classified(Partial, NoFork, false, false, true)
    else if res.exitCode == 128 + SIGSEGV then Classified(Partial, Segv, false, false, true)
    else if Occurs(NOT_IMPLEMENTED, kept) || Occurs(ENOSYS, kept) then Classified(Unavailable, Enosys, false, false, true)
    else if res.exitCode != k.wantEc then Classified(Partial, WrongExit, false, false, true)
    else if k.hasNeedle && !res.needleFound then Classified(Partial, WrongOutput, true, false, true)
    else Classified(Supported, NoReason, true, true, true)
  }

  /** `classify_full`, with its four out-parameters. */
  method ClassifyFull(k: Case, res: CaseResult, kept: Bytes)
    returns (verdict: Verdict, reason: Reason, functional: bool, output: bool, capture: bool)
    ensures Classified(verdict, reason, functional, output, capture) == Classification(k, res, kept)
  {
    hide Occurs;
    reason, functional, output, capture := NoReason, false, false, true;
    if res.captureTimeout {
      return Partial, CaptureTimeout, false, false, false;
    }
    if !res.sawEof {
      return Partial, NoEof, false, false, false;
    }
    if !res.workerReaped {
      return Partial, NoReap, false, false, false;
    }
    var missing := StoreContains(kept, NOT_FOUND);
    if res.exitCode == 127 || missing {
      return Unavailable, Missing, functional, output, capture;
    }
    if res.exitCode == 124 {
      return Unavailable, Timeout, functional, output, capture;
    }
    if res.exitCode == 125 {
      return Partial, NoFork, functional, output, capture;
    }
    if res.exitCode == 128 + SIGSEGV {
      return Partial, Segv, functional, output, capture;
    }
    var unimplemented := StoreContains(kept, NOT_IMPLEMENTED);
    var enosys := StoreContains(kept, ENOSYS);
    if unimplemented || enosys {
      return Unavailable, Enosys, functional, output, capture;
    }
    if res.exitCode != k.wantEc {
      return Partial, WrongExit, functional, output, capture;
    }
    functional := true;
    if k.hasNeedle && !res.needleFound {
      return Partial, WrongOutput, functional, false, capture;
    }
    return Supported, NoReason, functional, true, capture;
  }

  /** No signal ended the worker, and it left the expected code: the bits of a wait status, as waitpid(2) lays them out. */
  predicate EndedNormally(k: Case, reap: Reap) {
    reap.Status? && reap.status % 128 == 0 && (reap.status / 256) % 256 == k.wantEc
  }

  /**
    What a finished case reports, from the wait statuses in the log alone: `code` is the exit code, `signal` the one
    that ended the worker, `core` its core flag. A killed worker that was not seen to exit by itself is excused when its
    output came to an end and nothing else was asked for; otherwise it timed out.
   */
  lemma StatusTold(k: Case, output: Bytes, fed: Bytes, kept: Bytes, es: seq<Event>, reap: Reap, res: CaseResult,
                   code: nat, core: nat, signal: nat)
    requires CaseDone(k, output, fed, kept, es, reap, res) && code < 256 && core < 2 && signal < 128
    ensures var excused := Eofs(es) != [] && k.wantEc == 0 && (!k.hasNeedle || Seen(Capped(k.needle), fed).found);
            && (Statuses(es) == [256 * code] ==> (res.exitCode, res.timedOut) == (code, false))
            && (Statuses(es) == [256 * code + 128 * core + signal] && signal != 0 ==>
                  (res.exitCode, res.timedOut) ==
                  if Kills(es) == [] then (128 + signal, false) else if excused then (0, false) else (124, true))
            && (Statuses(es) == [] ==>
                  (res.exitCode, res.timedOut) ==
                  if Kills(es) == [] then (125, false) else if excused then (0, false) else (124, true))
  {
    StatusBits(code, core, signal);
    StatusBits(code, 0, 0);
    hide Kills, Eofs, KillsLate, Answers, Statuses, Seen, ExitCode, NormalExit;
  }

  lemma StatusBits(code: nat, core: nat, signal: nat)
    requires code < 256 && core < 2 && signal < 128
    ensures var status := 256 * code + 128 * core + signal;
            (NormalExit(status) <==> signal == 0) && ExitCode(status) == if signal == 0 then code else 128 + signal
  {
    var status := 256 * code + 128 * core + signal;
    assert status == 128 * (2 * code + core) + signal;
    assert status % 128 == signal && status / 256 == code;
  }

  /**
    The verdict of a finished case from what was logged and kept alone, for the worker that exited with `code` and for
    the one that did not.
   */
  lemma VerdictTold(k: Case, output: Bytes, fed: Bytes, kept: Bytes, es: seq<Event>, reap: Reap, res: CaseResult,
                    code: nat, core: nat, signal: nat)
    requires CaseDone(k, output, fed, kept, es, reap, res) && code < 256 && core < 2 && 0 < signal < 128
    ensures var c := Classification(k, res, kept); var found := Seen(Capped(k.needle), output).found;
            var exited := Statuses(es) == [256 * code];
            var crashed := Statuses(es) == [256 * code + 128 * core + signal] && Kills(es) == [];
            && (Eofs(es) == [] ==> c == Classified(Partial, CaptureTimeout, false, false, false))
            && (Eofs(es) != [] && Occurs(NOT_FOUND, kept) ==> c == Classified(Unavailable, Missing, false, false, true))
            && (Eofs(es) != [] && exited && code == 127 ==> c == Classified(Unavailable, Missing, false, false, true))
            && (Eofs(es) != [] && exited && code < 124 && SaysUnsupported(kept) && !Occurs(NOT_FOUND, kept) ==>
                  c == Classified(Unavailable, Enosys, false, false, true))
            && (Eofs(es) != [] && !SaysUnsupported(kept) ==>
                  && (exited && code < 124 && code != k.wantEc ==> c == Classified(Partial, WrongExit, false, false, true))
                  && (exited && code < 124 && code == k.wantEc && k.hasNeedle && !found ==>
                        c == Classified(Partial, WrongOutput, true, false, true))
                  && (exited && code < 124 && code == k.wantEc && (!k.hasNeedle || found) ==>
                        c == Classified(Supported, NoReason, true, true, true))
                  && (crashed && signal == 11 ==> c == Classified(Partial, Segv, false, false, true))
                  && (crashed && c.verdict == Supported ==> k.wantEc == 128 + signal)
                  && (Statuses(es) == [] && Kills(es) == [] ==> c == Classified(Partial, NoFork, false, false, true))
                  && (Kills(es) != [] && Statuses(es) == [256 * code + 128 * core + signal] ==>
                        c == if k.wantEc == 0 && (!k.hasNeedle || found)
                             then Classified(Supported, NoReason, true, true, true)
                             else Classified(Unavailable, Timeout, false, false, true)))
  {
    StatusTold(k, output, fed, kept, es, reap, res, code, core, signal);
    hide Kills, KillsLate, Answers, Statuses, Seen, Occurs;
  }

  /**
    What "supported" is worth, for every case expecting an exit code below 124: the whole
    output was captured, it holds the needle and no complaint the store kept, and the
    worker exited with the code, or was killed, in time, when 0 was expected.
   */
  lemma SupportedMeans(k: Case, output: Bytes, fed: Bytes, kept: Bytes, es: seq<Event>, reap: Reap, res: CaseResult)
    requires CaseDone(k, output, fed, kept, es, reap, res) && k.wantEc < 124
    requires Classification(k, res, kept).verdict == Supported
    ensures Eofs(es) != [] && res.workerReaped && !res.captureTimeout && fed == output
    ensures k.hasNeedle && k.needle != [] ==> Occurs(Capped(k.needle), output)
    ensures EndedNormally(k, reap) || (k.wantEc == 0 && |Kills(es)| == 1 && KillsLate(es))
    ensures !SaysUnsupported(kept)
  {
    hide Occurs, KillsLate, Kills, Eofs, ReapedAs;
    if k.hasNeedle && k.needle != [] {
      SeenIsSound(Capped(k.needle), fed);
    }
  }

  /**
    Exactly when a case is supported: the end of file was read, the needle found and no complaint kept, and the
    worker exited with the expected code, or was killed without an exit status when the expected code is 0.
   */
  lemma SupportedExactly(k: Case, output: Bytes, fed: Bytes, kept: Bytes, es: seq<Event>, reap: Reap, res: CaseResult)
    requires CaseDone(k, output, fed, kept, es, reap, res) && k.wantEc < 124
    ensures Classification(k, res, kept).verdict == Supported <==>
            && Eofs(es) != [] && (!k.hasNeedle || Seen(Capped(k.needle), output).found) && !SaysUnsupported(kept)
            && (if reap.Status? && reap.status % 128 == 0 then Statuses(es) == [reap.status] && EndedNormally(k, reap)
                else Kills(es) != [] && k.wantEc == 0)
  {
    hide Occurs, KillsLate, Kills, Eofs, Statuses, Answers;
  }

  /** The verdict and the three flags agree, and a finished case is never "no-reap". */
  lemma FlagsAgree(k: Case, output: Bytes, fed: Bytes, kept: Bytes, es: seq<Event>, reap: Reap, res: CaseResult)
    requires CaseDone(k, output, fed, kept, es, reap, res)
    ensures var c := Classification(k, res, kept);
            && (c.verdict == Supported <==> c.functional && c.output && c.capture)
            && c.reason != NoReap && c.reason != NoEof
            && (!c.capture <==> !res.sawEof)
  {
    hide Occurs, KillsLate, Kills, Eofs, ReapedAs;
  }

  /** A needle the matcher is complete for is in the output of every supported case, and its absence fails the case. */
  lemma NeedleDecides(k: Case, output: Bytes, fed: Bytes, kept: Bytes, es: seq<Event>, reap: Reap, res: CaseResult)
    requires CaseDone(k, output, fed, kept, es, reap, res) && res.sawEof
    requires k.hasNeedle && k.needle != [] && SelfAligned(Capped(k.needle))
    ensures res.needleFound <==> Occurs(Capped(k.needle), output)
  {
    hide Occurs, KillsLate, Kills, Eofs, ReapedAs;
    CompleteExactlyWhenSelfAligned(Capped(k.needle));
  }

  // ---- Was the end of file there before the kill? ----

  /** A store of this many bytes, as the harness has it. */
  const OUT_MAX: nat := 1024

  /** A finished run of the case that is called supported. */
  ghost predicate SupportedRun(k: Case, output: Bytes, es: seq<Event>, reap: Reap, res: CaseResult) {
    var kept := Kept(output, OUT_MAX);
    CaseDone(k, output, output, kept, es, reap, res) && Classification(k, res, kept).verdict == Supported
  }

  /** A byte that does not begin the needle. */
  function Filler(needle: Bytes): bv8 {
    if needle != [] && needle[0] == 0 then 1 else 0
  }

  /** An output with the needle in it behind more filler than the store keeps. */
  function HungOutput(k: Case): Bytes {
    seq(OUT_MAX, _ => Filler(Capped(k.needle))) + Capped(k.needle)
  }

  lemma {:induction false} FillerMatchesNothing(needle: Bytes, n: nat)
    ensures Seen(needle, seq(n, _ => Filler(needle))) == START
  {
    var filler := seq(n, _ => Filler(needle));
    if n > 0 {
      FillerMatchesNothing(needle, n - 1);
      assert filler[..n - 1] == seq(n - 1, _ => Filler(needle));
      SeenLast(needle, filler);
    }
  }

  lemma NeedleBehindFiller(k: Case)
    requires Capped(k.needle) != []
    ensures Seen(Capped(k.needle), HungOutput(k)).found
  {
    var needle := Capped(k.needle);
    var filler := seq(OUT_MAX, _ => Filler(needle));
    FillerMatchesNothing(needle, OUT_MAX);
    FeedConcat(needle, START, filler, needle);
    SeenPrefix(needle, |needle| - 1);
    SeenLast(needle, needle);
  }

  lemma FillerSaysNothing(k: Case)
    ensures !SaysUnsupported(Kept(HungOutput(k), OUT_MAX))
  {
    var kept := Kept(HungOutput(k), OUT_MAX);
    var b := Filler(Capped(k.needle));
    assert forall i :: 0 <= i < |kept| ==> kept[i] == b;
    assert NOT_FOUND[0] == 97 && NOT_IMPLEMENTED[0] == 110 && ENOSYS[0] == 69;
    forall needle: Bytes, i: nat | needle != [] && needle[0] != b ensures !OccursAt(needle, kept, i) {
      if i + |needle| <= |kept| {
        assert kept[i..i + |needle|][0] == kept[i];
      }
    }
  }

  /** The log of a worker that hangs from the start: killed in time, and only then at its end of file. */
  const HUNG_LOG: seq<Event> := [Time(0), Killed(CASE_TIMEOUT_MS), EndOfFile(CASE_TIMEOUT_MS), Waited(Ended(9))]

  lemma HungLog()
    ensures Kills(HUNG_LOG) == [CASE_TIMEOUT_MS] && Eofs(HUNG_LOG) == [CASE_TIMEOUT_MS] && Statuses(HUNG_LOG) == [9]
    ensures KillsLate(HUNG_LOG) && !EofBeforeKill(HUNG_LOG)
  {
    var l1 := [Time(0)];
    var l2 := l1 + [Killed(CASE_TIMEOUT_MS)];
    var l3 := l2 + [EndOfFile(CASE_TIMEOUT_MS)];
    assert HUNG_LOG == l3 + [Waited(Ended(9))];
    NoEvents();
    assert [] + [Time(0)] == l1;
    Logged([], Time(0));
    assert KillsLate(l1) && Start(l1) == 0;
    hide Kills, Eofs, Statuses, Answers, KillsLate, EofBeforeKill, Start, Limits, InTime, Overdue, NoticedAt;
    Logged(l1, Killed(CASE_TIMEOUT_MS));
    Observed(l1, Killed(CASE_TIMEOUT_MS));
    Logged(l2, EndOfFile(CASE_TIMEOUT_MS));
    Observed(l2, EndOfFile(CASE_TIMEOUT_MS));
    Logged(l3, Waited(Ended(9)));
    Observed(l3, Waited(Ended(9)));
  }

  /** The case asks for nothing that a hung worker cannot have written. */
  predicate HangPasses(k: Case) {
    k.wantEc == 0 && !(k.hasNeedle && k.needle == [])
  }

  lemma HungRun(k: Case) returns (res: CaseResult)
    requires HangPasses(k)
    ensures SupportedRun(k, HungOutput(k), HUNG_LOG, Status(9), res)
  {
    var output := HungOutput(k);
    var found := Seen(Capped(k.needle), output).found;
    HungLog();
    FillerSaysNothing(k);
    if Capped(k.needle) != [] {
      NeedleBehindFiller(k);
    }
    res := CaseResult(0, false, false, true, true, true, |output| % TWO64,
                      Fnv.Hash(Fnv.BASIS, Kept(output, OUT_MAX)), found);
    hide HungOutput, Kept, Occurs, Seen, HUNG_LOG, Kills, Eofs, Statuses, Answers, KillsLate, SaysUnsupported;
    SupportedExactly(k, output, output, Kept(output, OUT_MAX), HUNG_LOG, Status(9), res);
  }

  /**
    Every supported run of a case ended in a normal exit with the expected code, or met the end of file before its
    kill, exactly when the case expects another code than 0 or a needle that cannot be found.
   */
  lemma EofBeforeKillExactly(k: Case)
    requires k.wantEc < 124
    ensures (forall output, es, reap, res :: SupportedRun(k, output, es, reap, res) ==>
               EndedNormally(k, reap) || EofBeforeKill(es)) <==>
            k.wantEc != 0 || (k.hasNeedle && k.needle == [])
  {
    if HangPasses(k) {
      var res := HungRun(k);
      HungLog();
    } else {
      forall output, es, reap, res | SupportedRun(k, output, es, reap, res) ensures EndedNormally(k, reap) {
        SupportedExactly(k, output, output, Kept(output, OUT_MAX), es, reap, res);
        FeedDone([], START, output);
      }
    }
  }

  /**
    And the harness has such a run for every such case: this worker writes its output, keeps its pipe open and never
    ends; the kill is what closes the pipe, and the case is supported.
   */
  method HungCaseIsSupported(k: Case)
    returns (verdict: Verdict, output: Bytes, ghost es: seq<Event>, ghost reap: Reap, ghost res: CaseResult)
    requires HangPasses(k)
    ensures verdict == Supported && SupportedRun(k, output, es, reap, res)
    ensures !EndedNormally(k, reap) && !EofBeforeKill(es) && |Kills(es)| == 1
  {
    hide Occurs, Kills, Eofs, Statuses, Answers, KillsLate, EofBeforeKill, SaysUnsupported, Seen;
    output := HungOutput(k);
    var store := new bv8[OUT_MAX];
    var c := new MatrixCapture(store, k.needle);
    var p := new Pipe(output, [], [], true);
    var w := new Worker(p, []);
    var clock := new Clock(0, []);
    var rc, result;
    rc, result, es, reap := RunCase(k, c, p, w, clock);
    res := result;
    StoreFits(c);
    FillerSaysNothing(k);
    if Capped(k.needle) != [] {
      NeedleBehindFiller(k);
    }
    SupportedExactly(k, output, output, Kept(output, OUT_MAX), es, reap, result);
    var reason, functional, outputOk, capture;
    verdict, reason, functional, outputOk, capture := ClassifyFull(k, result, store[..c.storeLen]);
  }
}
