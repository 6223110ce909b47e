/**
  Capturing a worker's output from a non-blocking pipe: a truncating store, the
  needle matcher, and a drain to end of file under a deadline.
 */
module Capture {
  import opened Needle
  import opened Kernel
  import Fnv

  const DRAIN_TIMEOUT_MS: nat := 2000
  const POLL_SLICE_MS: nat := 50
  const CHUNK_MAX: nat := 256
  const TWO64: nat := 0x1_0000_0000_0000_0000

  // ---- The capture ----

  /** What a store of `cap` bytes keeps of a stream; the last byte is for the NUL. */
  function Kept(stream: Bytes, cap: nat): Bytes
    requires cap >= 2
  {
    if |stream| < cap then stream else stream[..cap - 1]
  }

  class MatrixCapture {
    const store: array?<bv8>
    const matcher: NeedleMatcher
    var storeLen: nat
    var bytesSeen: nat
    var truncated: bool
    var sawEof: bool
    var captureTimeout: bool
    /** Everything fed so far. */
    ghost var fed: Bytes

    /** `matrix_capture_init` */
    constructor (store: array?<bv8>, needle: Bytes)
      modifies store
      ensures Valid() && fed == [] && !sawEof && !captureTimeout && this.store == store
      ensures matcher.needle == Capped(needle) && fresh(matcher)
    {
      this.store := store;
      matcher := new NeedleMatcher(needle);
      storeLen, bytesSeen, truncated, sawEof, captureTimeout := 0, 0, false, false, false;
      fed := [];
      new;
      if store != null && store.Length > 0 {
        store[0] := 0;
      }
    }

    /** There is a store to fill. */
    predicate Stores() {
      store != null && store.Length >= 2
    }

    /** The fields are what the bytes fed so far make them. */
    ghost predicate Valid()
      reads this, store, matcher
    {
      && bytesSeen == |fed| % TWO64
      && Needle.Valid(matcher.needle, START)
      && matcher.State() == Seen(matcher.needle, fed)
      && Holds(fed)
    }

    /** The store holds the beginning of a stream, and knows whether it holds all of it. */
    predicate Holds(stream: Bytes)
      reads this`storeLen, this`truncated, store
    {
      if Stores() then
        && storeLen == |Kept(stream, store.Length)| && store[..storeLen] == Kept(stream, store.Length)
        && store[storeLen] == 0 && (truncated <==> |stream| >= store.Length)
      else storeLen == 0 && !truncated
    }

    /** The last part of `matrix_capture_feed`: what there is room for goes to the store. */
    method Keep(data: Bytes, ghost before: Bytes)
      requires Holds(before) && data != []
      modifies this`storeLen, this`truncated, store
      ensures Holds(before + data)
    {
      if !Stores() {
        return;
      }
      var room := store.Length - 1 - storeLen;
      if room == 0 {
        truncated := true;
        assert Kept(before + data, store.Length) == Kept(before, store.Length);
        return;
      }
      var copy := if |data| < room then |data| else room;
      ghost var held := store[..storeLen];
      forall i | 0 <= i < copy {
        store[storeLen + i] := data[i];
      }
      storeLen := storeLen + copy;
      store[storeLen] := 0;
      assert store[..storeLen] == held + data[..copy];
      assert Kept(before + data, store.Length) == held + data[..copy];
      if copy < |data| {
        truncated := true;
      }
    }

    /** `matrix_capture_feed` */
    method FeedData(data: Bytes)
      requires Valid()
      modifies this`storeLen, this`bytesSeen, this`truncated, this`fed, store, matcher
      ensures Valid() && fed == old(fed) + data
    {
      hide MatrixCapture.Holds;
      if data == [] {
        assert fed + data == fed;
        return;
      }
      FeedConcat(matcher.needle, START, fed, data);
      matcher.FeedData(data);
      bytesSeen := (bytesSeen + |data|) % TWO64;
      Keep(data, fed);
      fed := fed + data;
    }

    /** The capture follows the pipe: it was fed what was read, and end of file means all of it. */
    ghost predicate Follows(p: Pipe)
      reads this`fed, this`sawEof, p`sent
    {
      p.Valid() && fed == p.output[..p.sent] && (sawEof ==> p.sent == |p.output|)
    }

    /** A pipe and a clock without surprises. */
    predicate Quiet(p: Pipe, clock: Clock)
      reads p, clock
    {
      p.script == [] && p.polls == [] && clock.delays == []
    }

    /** `matrix_capture_read_nb`: 0 at end of file, 1 when the pipe is empty for now, -1 on an error. */
    method ReadNb(p: Pipe, ghost clock: Clock) returns (rc: int)
      requires Valid() && Follows(p)
      modifies this, store, matcher, p`sent, p`script, p`failures, clock`log
      ensures Valid() && Follows(p) && p.sent >= old(p.sent) && captureTimeout == old(captureTimeout)
      ensures rc == 0 || rc == 1 || rc == -1
      ensures rc == 0 ==> sawEof
      ensures rc != 0 ==> sawEof == old(sawEof)
      ensures p.failures == old(p.failures) + if rc == -1 then 1 else 0
      ensures clock.log == old(clock.log) + if rc == 0 then [EndOfFile(clock.now)] else []
      ensures old(p.script) == [] ==> p.script == [] && p.sent == |p.output| && rc == if p.heldOpen then 1 else 0
    {
      while true
        invariant p.failures == old(p.failures) && (old(p.script) == [] ==> p.script == [])
        invariant Valid() && Follows(p) && p.sent >= old(p.sent) && clock.log == old(clock.log)
        invariant sawEof == old(sawEof) && captureTimeout == old(captureTimeout)
        decreases |p.output| - p.sent, |p.script|
      {
        ghost var before := p.sent;
        var r := p.Read(CHUNK_MAX, clock);
        match r {
          case Got(data) =>
            assert p.output[..p.sent] == p.output[..before] + data;
            FeedData(data);
          case Eof =>
            sawEof := true;
            return 0;
          case Interrupted =>
          case WouldBlock => return 1;
          case Broken => return -1;
        }
      }
    }

    method TimeOut()
      requires Valid()
      modifies this`captureTimeout
      ensures Valid() && captureTimeout
    {
      captureTimeout := true;
    }

    /** What a drain logs: readings of the clock, and an end of file exactly when it meets one. */
    predicate DrainLog(seen: seq<Event>, met: bool) {
      Answers(seen) == [] && Statuses(seen) == [] && Kills(seen) == [] && (Eofs(seen) != [] <==> met)
    }

    lemma DrainLogged(seen: seq<Event>, e: Event)
      requires DrainLog(seen, false) && (e.Time? || e.EndOfFile?)
      ensures DrainLog(seen + [e], e.EndOfFile?)
    {
      Logged(seen, e);
    }

    lemma DrainJoined(a: seq<Event>, b: seq<Event>, met: bool)
      requires DrainLog(a, false) && DrainLog(b, met)
      ensures DrainLog(a + b, met)
    {
      LogConcat(a, b);
    }

    lemma DrainStarts()
      ensures DrainLog([], false)
    {
    }

    /** One turn of the drain: 1 to go on, 0 at end of file, -1 past the deadline or after a hard error. */
    method DrainOnce(p: Pipe, clock: Clock, deadline: nat) returns (rc: int, ghost seen: seq<Event>)
      requires Valid() && Follows(p) && !sawEof
      modifies this, store, matcher, p`sent, p`script, p`polls, p`failures, clock
      ensures Valid() && Follows(p) && p.sent >= old(p.sent) && clock.now >= old(clock.now)
      ensures clock.log == old(clock.log) + seen && DrainLog(seen, rc == 0)
      ensures rc == 1 || rc == 0 || rc == -1
      ensures (sawEof <==> rc == 0) && (captureTimeout <==> old(captureTimeout) || rc == -1)
      ensures rc == 1 ==> p.failures == old(p.failures) && old(clock.now) < deadline && clock.now > old(clock.now)
      ensures rc == -1 ==> p.failures > old(p.failures) || clock.now >= deadline
      ensures old(Quiet(p, clock)) && !p.heldOpen && old(clock.now) < deadline ==> rc == 0
    {
      hide MatrixCapture.Valid, MatrixCapture.Follows, MatrixCapture.DrainLog;
      var t := clock.Now();
      DrainStarts();
      DrainLogged([], Time(t));
      seen := [] + [Time(t)];
      if t >= deadline {
        TimeOut();
        return -1, seen;
      }
      var a := p.Poll();
      if a == PollBroken {
        TimeOut();
        return -1, seen;
      }
      if a == Polled {
        rc := ReadNb(p, clock);
        if rc == 0 {
          DrainLogged(seen, EndOfFile(clock.now));
          seen := seen + [EndOfFile(clock.now)];
          return;
        }
        if rc < 0 {
          TimeOut();
          return;
        }
      }
      clock.Sleep(POLL_SLICE_MS);
      rc := 1;
    }

    /**
      `matrix_capture_drain_to_eof`: 0 exactly when end of file was reached, and then all
      the worker wrote has been fed; otherwise the timeout flag is set.
     */
    method DrainToEof(p: Pipe, clock: Clock, timeout: int) returns (rc: int, ghost seen: seq<Event>)
      requires Valid() && Follows(p)
      modifies this, store, matcher, p`sent, p`script, p`polls, p`failures, clock
      ensures Valid() && Follows(p) && p.sent >= old(p.sent) && clock.now >= old(clock.now)
      ensures clock.log == old(clock.log) + seen && DrainLog(seen, sawEof && !old(sawEof))
      ensures rc == 0 || rc == -1
      ensures (rc == 0 <==> sawEof) && (old(sawEof) ==> sawEof)
      ensures rc == 0 ==> fed == p.output
      ensures captureTimeout <==> old(captureTimeout) || rc == -1
      ensures old(Quiet(p, clock)) && !p.heldOpen ==> rc == 0
      ensures rc == -1 ==> p.failures > old(p.failures) ||
                           clock.now >= old(clock.now) + if timeout <= 0 then DRAIN_TIMEOUT_MS else timeout
    {
      hide MatrixCapture.Valid, MatrixCapture.Follows, MatrixCapture.DrainLog;
      var t := clock.Now();
      var deadline := t + if timeout <= 0 then DRAIN_TIMEOUT_MS else timeout;
      DrainStarts();
      DrainLogged([], Time(t));
      seen := [] + [Time(t)];
      while !sawEof
        invariant Valid() && Follows(p) && p.sent >= old(p.sent) && clock.now >= t
        invariant clock.log == old(clock.log) + seen && DrainLog(seen, false)
        invariant captureTimeout == old(captureTimeout) && p.failures == old(p.failures)
        invariant old(Quiet(p, clock)) && !p.heldOpen ==> Quiet(p, clock) && clock.now == t
        invariant sawEof == old(sawEof)
        decreases !sawEof, deadline - clock.now
      {
        ghost var before := seen;
        ghost var once;
        rc, once := DrainOnce(p, clock, deadline);
        DrainJoined(before, once, rc == 0);
        seen := before + once;
        if rc == 0 {
          break;
        }
        if rc < 0 {
          return -1, seen;
        }
      }
      FedAll(p);
      return 0, seen;
    }

    lemma FedAll(p: Pipe)
      requires Follows(p) && sawEof
      ensures fed == p.output
    {
    }

    /** `matrix_capture_store_hash` */
    method StoreHash() returns (h: bv32)
      requires store != null ==> storeLen <= store.Length
      ensures h == if store == null then 0 else Fnv.Hash(Fnv.BASIS, store[..storeLen])
    {
      if store == null {
        return 0;
      }
      h := Fnv.BASIS;
      var i := 0;
      ghost var all := store[..storeLen];
      assert all[0..] == all;
      while i < storeLen
        invariant 0 <= i <= storeLen && store[..storeLen] == all
        invariant Fnv.Hash(h, all[i..]) == Fnv.Hash(Fnv.BASIS, all)
      {
        assert all[i..][0] == store[i] && all[i..][1..] == all[i + 1..];
        h := Fnv.Step(h, store[i]);
        i := i + 1;
      }
    }

    /** `matrix_needle_found` */
    method NeedleFound() returns (found: bool)
      requires Valid()
      ensures found == Seen(matcher.needle, fed).found
    {
      found := matcher.found;
    }
  }

  /** The hash of a full store tells apart two streams that differ in one byte it keeps. */
  lemma StoredByteChangesHash(s: Bytes, t: Bytes, cap: nat, i: nat)
    requires cap >= 2 && |s| == |t| && i < |s| && i < cap - 1
    requires s[i] != t[i] && s[..i] == t[..i] && s[i + 1..] == t[i + 1..]
    ensures Fnv.Hash(Fnv.BASIS, Kept(s, cap)) != Fnv.Hash(Fnv.BASIS, Kept(t, cap))
  {
    var a, b := Kept(s, cap), Kept(t, cap);
    assert a[..i] == s[..i] && b[..i] == t[..i];
    assert forall k | i + 1 <= k < |a| :: a[k] == s[k] == s[i + 1..][k - i - 1] && b[k] == t[k] == t[i + 1..][k - i - 1];
    assert a[i + 1..] == b[i + 1..];
    Fnv.OneByteChangesHash(Fnv.BASIS, a, b, i);
  }

  /** A byte the store does not keep changes nothing the hash sees. */
  lemma UnstoredByteKeepsHash(s: Bytes, t: Bytes, cap: nat)
    requires cap >= 2 && |s| >= cap && |t| >= cap && s[..cap - 1] == t[..cap - 1]
    ensures Fnv.Hash(Fnv.BASIS, Kept(s, cap)) == Fnv.Hash(Fnv.BASIS, Kept(t, cap))
  {
  }
}
