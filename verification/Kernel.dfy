/**
  The system calls of the matrix harness. Every answer of `read`, `poll`, `waitpid` and the
  clock comes from a script, so that what is proved holds for every schedule; what was asked
  and answered, and when, is logged.
 */
module Kernel {
  import opened Needle

  datatype ReadEvent = Data(n: nat) | Intr | Again | Close | Fail
  datatype ReadResult = Got(data: Bytes) | Eof | Interrupted | WouldBlock | Broken
  datatype PollAnswer = Polled | PollTransient | PollBroken

  /** What `waitpid` answers: still running, the wait status, EINTR, ECHILD, another error. */
  datatype WaitAnswer = Running | Ended(status: nat) | WaitIntr | NoChild | WaitFail

  /** A reading of the clock, an end of file read, an answer of `waitpid`, a SIGKILL sent. */
  datatype Event = Time(at: nat) | EndOfFile(at: nat) | Waited(answer: WaitAnswer) | Killed(at: nat)

  /** The monotonic clock, and the log of the calls; every reading and every sleep may take longer than asked. */
  class Clock {
    var now: nat
    var delays: seq<nat>
    ghost var log: seq<Event>

    constructor (now: nat, delays: seq<nat>)
      ensures this.now == now && this.delays == delays && log == []
    {
      this.now, this.delays, log := now, delays, [];
    }

    method Delay()
      modifies this`now, this`delays
      ensures now >= old(now) && (old(delays) == [] ==> delays == [] && now == old(now))
    {
      if delays != [] {
        now, delays := now + delays[0], delays[1..];
      }
    }

    method Now() returns (t: nat)
      modifies this
      ensures t == now && now >= old(now) && (old(delays) == [] ==> delays == [] && now == old(now))
      ensures log == old(log) + [Time(t)]
    {
      Delay();
      t := now;
      log := log + [Time(t)];
    }

    /** `nanosleep` sleeps at least as long as asked, and at least a millisecond. */
    method Sleep(ms: nat)
      modifies this`now, this`delays
      ensures now > old(now) && now >= old(now) + ms && (old(delays) == [] ==> delays == [])
    {
      Delay();
      now := now + if ms < 1 then 1 else ms;
    }
  }

  /** The answer of a `read` of at most `max` bytes. A script that is over delivers the rest of the output at once. */
  function ReadAnswer(output: Bytes, sent: nat, script: seq<ReadEvent>, heldOpen: bool, max: nat): (r: ReadResult)
    requires sent <= |output| && max > 0
    ensures r.Got? ==> 0 < |r.data| <= max && sent + |r.data| <= |output| && r.data == output[sent..sent + |r.data|]
    ensures r.Eof? ==> sent == |output|
  {
    match if script == [] then Data(max) else script[0]
    case Data(n) =>
      var room := if n < max then n else max;
      var k := if room < |output| - sent then room else |output| - sent;
      if k > 0 then Got(output[sent..sent + k])
      else if script == [] && !heldOpen then Eof
      else WouldBlock
    case Close => if sent == |output| then Eof else WouldBlock
    case Intr => Interrupted
    case Again => WouldBlock
    case Fail => Broken
  }

  /**
    The read end of a worker's pipe. `output` is all the worker ever writes; end of
    file comes only after the last byte of it has been read.
   */
  class Pipe {
    const output: Bytes
    var sent: nat
    var script: seq<ReadEvent>
    var polls: seq<PollAnswer>
    /** Someone keeps the write end open after the script; a kill ends that. */
    var heldOpen: bool
    /** Hard errors of `read` and `poll` so far. */
    ghost var failures: nat

    constructor (output: Bytes, script: seq<ReadEvent>, polls: seq<PollAnswer>, heldOpen: bool)
      ensures Valid() && this.output == output && sent == 0 && this.heldOpen == heldOpen
      ensures this.script == script && this.polls == polls
    {
      this.output := output;
      sent, this.script, this.polls, this.heldOpen := 0, script, polls, heldOpen;
      failures := 0;
    }

    predicate Valid()
      reads this`sent
    {
      sent <= |output|
    }

    method Read(max: nat, ghost clock: Clock) returns (r: ReadResult)
      requires Valid() && max > 0
      modifies this`sent, this`script, this`failures, clock`log
      ensures r == ReadAnswer(output, old(sent), old(script), heldOpen, max)
      ensures Valid() && sent == old(sent) + if r.Got? then |r.data| else 0
      ensures script == if old(script) == [] then [] else old(script)[1..]
      ensures failures == old(failures) + if r.Broken? then 1 else 0
      ensures clock.log == old(clock.log) + if r.Eof? then [EndOfFile(clock.now)] else []
    {
      r := ReadAnswer(output, sent, script, heldOpen, max);
      if script != [] {
        script := script[1..];
      }
      match r {
        case Got(data) => sent := sent + |data|;
        case Eof => clock.log := clock.log + [EndOfFile(clock.now)];
        case Broken => failures := failures + 1;
        case Interrupted =>
        case WouldBlock =>
      }
    }

    /** `poll` with timeout 0. */
    method Poll() returns (a: PollAnswer)
      modifies this`polls, this`failures
      ensures a == if old(polls) == [] then Polled else old(polls)[0]
      ensures polls == if old(polls) == [] then [] else old(polls)[1..]
      ensures failures == old(failures) + if a == PollBroken then 1 else 0
    {
      if polls == [] {
        return Polled;
      }
      a, polls := polls[0], polls[1..];
      if a == PollBroken {
        failures := failures + 1;
      }
    }
  }

  /** What a blocking `waitpid` answers; a worker whose script is over died of the SIGKILL it was sent. */
  function WaitResult(waits: seq<WaitAnswer>): WaitAnswer {
    if waits == [] then Ended(9) else if waits[0] == Running then WaitResult(waits[1..]) else waits[0]
  }

  class Worker {
    const pipe: Pipe
    var waits: seq<WaitAnswer>

    constructor (pipe: Pipe, waits: seq<WaitAnswer>)
      ensures this.pipe == pipe && this.waits == waits
    {
      this.pipe, this.waits := pipe, waits;
    }

    /** `waitpid(pid, &status, WNOHANG)` */
    method Poll(ghost clock: Clock) returns (a: WaitAnswer)
      modifies this`waits, clock`log
      ensures a == if old(waits) == [] then Running else old(waits)[0]
      ensures waits == if old(waits) == [] then [] else old(waits)[1..]
      ensures clock.log == old(clock.log) + [Waited(a)]
    {
      a := Running;
      if waits != [] {
        a, waits := waits[0], waits[1..];
      }
      clock.log := clock.log + [Waited(a)];
    }

    /** `waitpid(pid, &status, 0)` */
    method Wait(ghost clock: Clock) returns (a: WaitAnswer)
      modifies this`waits, clock`log
      ensures a == WaitResult(old(waits)) && a != Running
      ensures clock.log == old(clock.log) + [Waited(a)]
    {
      a := Running;
      while waits != [] && a == Running
        invariant clock.log == old(clock.log)
        invariant WaitResult(old(waits)) == if a == Running then WaitResult(waits) else a
        decreases |waits|
      {
        a, waits := waits[0], waits[1..];
      }
      if a == Running {
        a := Ended(9);
      }
      clock.log := clock.log + [Waited(a)];
    }

    /** `kill(pid, SIGKILL)`: its end of the pipe is closed. */
    method Kill(clock: Clock)
      modifies pipe`heldOpen, clock`log
      ensures !pipe.heldOpen && clock.log == old(clock.log) + [Killed(clock.now)]
    {
      pipe.heldOpen := false;
      clock.log := clock.log + [Killed(clock.now)];
    }
  }

  // ---- Reading the log ----

  function Answers(es: seq<Event>): seq<WaitAnswer> {
    if es == [] then []
    else Answers(es[..|es| - 1]) + if es[|es| - 1].Waited? then [es[|es| - 1].answer] else []
  }

  /** The wait statuses that `waitpid` gave. */
  function Statuses(es: seq<Event>): seq<nat> {
    if es == [] then []
    else
      var e := es[|es| - 1];
      Statuses(es[..|es| - 1]) + if e.Waited? && e.answer.Ended? then [e.answer.status] else []
  }

  /** The times of the kills. */
  function Kills(es: seq<Event>): seq<nat> {
    if es == [] then [] else Kills(es[..|es| - 1]) + if es[|es| - 1].Killed? then [es[|es| - 1].at] else []
  }

  /** The times of the reads that met the end of file. */
  function Eofs(es: seq<Event>): seq<nat> {
    if es == [] then [] else Eofs(es[..|es| - 1]) + if es[|es| - 1].EndOfFile? then [es[|es| - 1].at] else []
  }

  /** An end of file was read while no kill had been sent. */
  predicate EofBeforeKill(es: seq<Event>) {
    es != [] &&
    (EofBeforeKill(es[..|es| - 1]) || (es[|es| - 1].EndOfFile? && Kills(es[..|es| - 1]) == []))
  }

  lemma Logged(es: seq<Event>, e: Event)
    ensures Answers(es + [e]) == Answers(es) + if e.Waited? then [e.answer] else []
    ensures Statuses(es + [e]) == Statuses(es) + if e.Waited? && e.answer.Ended? then [e.answer.status] else []
    ensures Kills(es + [e]) == Kills(es) + if e.Killed? then [e.at] else []
    ensures Eofs(es + [e]) == Eofs(es) + if e.EndOfFile? then [e.at] else []
    ensures EofBeforeKill(es + [e]) <==> EofBeforeKill(es) || (e.EndOfFile? && Kills(es) == [])
  {
    assert (es + [e])[..|es|] == es;
  }

  lemma {:induction false} LogConcat(a: seq<Event>, b: seq<Event>)
    ensures Answers(a + b) == Answers(a) + Answers(b) && Statuses(a + b) == Statuses(a) + Statuses(b)
    ensures Kills(a + b) == Kills(a) + Kills(b) && Eofs(a + b) == Eofs(a) + Eofs(b)
    ensures Kills(a) != [] ==> (EofBeforeKill(a + b) <==> EofBeforeKill(a))
    ensures Kills(a + b) == [] ==> (EofBeforeKill(a + b) <==> Eofs(a + b) != [])
  {
    hide Answers, Statuses, Kills, Eofs, EofBeforeKill;
    NoEvents();
    if b == [] {
      assert a + b == a;
      EofWithoutKill(a);
    } else {
      var init, e := b[..|b| - 1], b[|b| - 1];
      LogConcat(a, init);
      assert a + b == (a + init) + [e] && b == init + [e];
      Logged(a + init, e);
      Logged(init, e);
    }
  }

  lemma NoEvents()
    ensures Answers([]) == [] && Statuses([]) == [] && Kills([]) == [] && Eofs([]) == [] && !EofBeforeKill([])
  {
  }

  lemma {:induction false} EofWithoutKill(es: seq<Event>)
    ensures Kills(es) == [] ==> (EofBeforeKill(es) <==> Eofs(es) != [])
  {
    if es != [] {
      EofWithoutKill(es[..|es| - 1]);
    }
  }
}
