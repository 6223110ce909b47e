/** One writer of the protocol, run alone, does what `ir0_shadow_set_hash` does as a routine. */
module ShadowSolo {
  import opened Text
  import opened Fields
  import opened Shadow
  import opened ShadowProtocol

  lemma RunOne(s: State, a: Action)
    requires WellTyped(s)
    ensures Run(s, [a]) == Next(s, a)
  {
    hide Next;
    assert [a][1..] == [];
  }

  /** The copying loop over `n` lines, with the answers of the environment. */
  function CopyScript(n: nat, io: SetHashIo, printed: nat): seq<Action> {
    if n == 0 then [] else [CopyLine(0, io.put(printed))] + CopyScript(n - 1, io, printed + 1)
  }

  /**
    The calls of one update in their order. Those that an earlier failure skips are not the process's next call
    and change nothing.
   */
  function Script(file: Option<string>, user: string, io: SetHashIo): seq<Action> {
    var ls := Chunks(Get(file, ""));
    var appended := Listed(ls, user) || io.put(|ls|);
    [Begin(0, io.openLock), TryLock(0), OpenSource(0, file.Some?), OpenTemp(0, io.openTemp)] +
    CopyScript(|ls|, io, 0) +
    [Flush(0, io.fflush && appended), Rename(0, io.rename), Unlink(0), Unlock(0)]
  }

  /** The one process at `pc`, with its temporary file open. */
  function At(file: string, call: Call, pc: Pc): State {
    State([call], [pc], [], [file, ""], 0, Some(1), Some(0), [0], [])
  }

  predicate Puts(n: nat, io: SetHashIo, printed: nat) {
    n == 0 || (io.put(printed) && Puts(n - 1, io, printed + 1))
  }

  lemma {:induction false} PutsMeans(n: nat, io: SetHashIo, printed: nat)
    ensures Puts(n, io, printed) <==> forall k: nat :: printed <= k < printed + n ==> io.put(k)
  {
    if n > 0 {
      PutsMeans(n - 1, io, printed + 1);
    }
  }

  lemma {:induction false} CopySkipped(file: string, call: Call, n: nat, io: SetHashIo, printed: nat)
    ensures Run(At(file, call, Cleanup), CopyScript(n, io, printed)) == At(file, call, Cleanup)
  {
    if n > 0 {
      CopySkipped(file, call, n - 1, io, printed + 1);
      assert CopyScript(n, io, printed)[1..] == CopyScript(n - 1, io, printed + 1);
      assert Next(At(file, call, Cleanup), CopyLine(0, io.put(printed))) == At(file, call, Cleanup);
    }
  }

  /** What the loop leaves for the part of the file from `pos` on. */
  function Done(file: string, call: Call, pos: nat, found: bool, out: string): Pc
    requires pos <= |file|
  {
    Copying(0, 1, |file|, found || Listed(Chunks(file[pos..]), call.user),
            out + Copied(file[pos..], call.user, call.hash))
  }

  lemma {:induction false} CopySolo(file: string, call: Call, pos: nat, found: bool, out: string, io: SetHashIo,
                                    printed: nat)
    requires pos <= |file|
    ensures var n := |Chunks(file[pos..])|;
            Run(At(file, call, Copying(0, 1, pos, found, out)), CopyScript(n, io, printed)) ==
            At(file, call, if Puts(n, io, printed) then Done(file, call, pos, found, out) else Cleanup)
    decreases |file| - pos
  {
    hide Next, Copied, Rewrite, Named, FirstChunk, AfterChunk, Chunks, Listed, SetHash, Prints;
    var unread := file[pos..];
    var n := |Chunks(unread)|;
    if unread == "" {
      CopiedAll("", call.user, call.hash);
      assert out + "" == out;
    } else {
      CopyStep(unread, call.user, call.hash);
      NextUnread(unread);
      OneLine(file, call, pos, found, out, io.put(printed));
      CopyOn(file, call, pos, found, out, io.put(printed), CopyScript(n - 1, io, printed + 1));
      assert CopyScript(n, io, printed) == [CopyLine(0, io.put(printed))] + CopyScript(n - 1, io, printed + 1);
      if io.put(printed) {
        var line := FirstChunk(unread);
        var next := out + Rewrite(line, call.user, call.hash);
        assert file[pos + |line|..] == unread[|line|..];
        CopySolo(file, call, pos + |line|, found || Named(line, call.user), next, io, printed + 1);
        assert next + Copied(unread[|line|..], call.user, call.hash) == out + Copied(unread, call.user, call.hash);
      } else {
        CopySkipped(file, call, n - 1, io, printed + 1);
      }
    }
  }

  lemma CopyOn(file: string, call: Call, pos: nat, found: bool, out: string, ok: bool, rest: seq<Action>)
    requires pos < |file|
    ensures Run(At(file, call, Copying(0, 1, pos, found, out)), [CopyLine(0, ok)] + rest) ==
            Run(Next(At(file, call, Copying(0, 1, pos, found, out)), CopyLine(0, ok)), rest)
  {
    hide Next;
    assert ([CopyLine(0, ok)] + rest)[1..] == rest;
  }

  lemma NextUnread(unread: string)
    requires unread != ""
    ensures 0 < |FirstChunk(unread)| <= |unread|
    ensures unread[|FirstChunk(unread)|..] == AfterChunk(unread)
  {
  }

  lemma OneLine(file: string, call: Call, pos: nat, found: bool, out: string, ok: bool)
    requires pos < |file|
    ensures var line := FirstChunk(file[pos..]);
            Next(At(file, call, Copying(0, 1, pos, found, out)), CopyLine(0, ok)) ==
            At(file, call, if ok then Copying(0, 1, pos + |line|, found || Named(line, call.user),
                                              out + Rewrite(line, call.user, call.hash)) else Cleanup)
  {
    hide FirstChunk, Named, Rewrite;
  }

  // ---- The whole update ----

  /** The process before its copying loop: at its first line, or on its way out. */
  lemma Opening(file: Option<string>, call: Call, io: SetHashIo)
    ensures var s := Run(Init(Get(file, ""), [call], []),
                         [Begin(0, io.openLock), TryLock(0), OpenSource(0, file.Some?), OpenTemp(0, io.openTemp)]);
            if call.user != "" && io.openLock && file.Some? && io.openTemp
            then s == At(file.value, call, Copying(0, 1, 0, false, ""))
            else s == Ending(Get(file, ""), call, s.pcs[0], s.lock)
                 && ((s.pcs[0] == Returned(-1) && s.lock == None) || (s.pcs[0] == Unlocking(-1) && s.lock == Some(0)))
  {
    var text := Get(file, "");
    assert Init(text, [call], []) == Ending(text, call, Idle, None);
    hide Next, Init;
    FourSteps(Ending(text, call, Idle, None),
              Begin(0, io.openLock), TryLock(0), OpenSource(0, file.Some?), OpenTemp(0, io.openTemp));
    BeginStep(text, call, io.openLock);
    if call.user != "" && io.openLock {
      LockStep(text, call);
      SourceStep(text, call, file.Some?);
      TempStep(text, call, if file.Some? then HasSource(0) else Unlocking(-1), Some(0), io.openTemp);
    } else {
      TempStep(text, call, Returned(-1), None, io.openTemp);
      EarlyIdles(text, call, file.Some?);
    }
  }

  lemma BeginStep(file: string, call: Call, ok: bool)
    ensures Next(Ending(file, call, Idle, None), Begin(0, ok)) ==
            Ending(file, call, if call.user != "" && ok then Locking(0) else Returned(-1), None)
  {
  }

  lemma LockStep(file: string, call: Call)
    ensures Next(Ending(file, call, Locking(0), None), TryLock(0)) == Ending(file, call, Locked, Some(0))
  {
  }

  lemma SourceStep(file: string, call: Call, ok: bool)
    ensures Next(Ending(file, call, Locked, Some(0)), OpenSource(0, ok)) ==
            Ending(file, call, if ok then HasSource(0) else Unlocking(-1), Some(0))
  {
  }

  lemma TempStep(file: string, call: Call, pc: Pc, lock: Option<nat>, ok: bool)
    requires pc == HasSource(0) || pc == Unlocking(-1) || pc == Returned(-1)
    ensures Next(Ending(file, call, pc, lock), OpenTemp(0, ok)) ==
            if pc == HasSource(0) then
              (if ok then At(file, call, Copying(0, 1, 0, false, "")).(lock := lock)
               else Ending(file, call, Unlocking(-1), lock))
            else Ending(file, call, pc, lock)
  {
  }

  lemma EarlyIdles(file: string, call: Call, ok: bool)
    ensures var s := Ending(file, call, Returned(-1), None);
            Next(s, TryLock(0)) == s && Next(s, OpenSource(0, ok)) == s
  {
  }

  /** The one process without a temporary file. */
  function Ending(file: string, call: Call, pc: Pc, lock: Option<nat>): State {
    State([call], [pc], [], [file], 0, None, lock, [0], [])
  }

  lemma FourSteps(s: State, a: Action, b: Action, c: Action, d: Action)
    requires WellTyped(s)
    ensures Run(s, [a, b, c, d]) == Next(Next(Next(Next(s, a), b), c), d)
  {
    hide Next;
    assert [a, b, c, d] == [a] + ([b] + ([c] + [d]));
    RunConcat(s, [a], [b] + ([c] + [d]));
    RunOne(s, a);
    RunConcat(Next(s, a), [b], [c] + [d]);
    RunOne(Next(s, a), b);
    RunConcat(Next(Next(s, a), b), [c], [d]);
    RunOne(Next(Next(s, a), b), c);
    RunOne(Next(Next(Next(s, a), b), c), d);
  }

  /** The routine has returned, with no temporary file and the lock given back. */
  predicate Outcome(s: State, rc: int, content: string) {
    WellTyped(s) && s.pcs == [Returned(rc)] && LiveContent(s) == content && s.temp == None && s.lock == None
  }

  function Closing(flushed: bool, renamed: bool): seq<Action> {
    [Flush(0, flushed), Rename(0, renamed), Unlink(0), Unlock(0)]
  }

  /** The one process after its temporary file was removed or renamed. */
  function After(call: Call, pc: Pc, inodes: seq<string>, renamed: bool, lock: Option<nat>): State {
    State([call], [pc], [], inodes, if renamed then 1 else 0, None, lock, if renamed then [0, 1] else [0],
          if renamed then [0] else [])
  }

  function Written(file: string, call: Call, pc: Pc, text: string): State {
    State([call], [pc], [], [file, text], 0, Some(1), Some(0), [0], [])
  }

  lemma FlushStep(file: string, call: Call, found: bool, out: string, ok: bool)
    ensures Next(At(file, call, Copying(0, 1, |file|, found, out)), Flush(0, ok)) ==
            if ok then Written(file, call, Flushed(1), FullOutput(call, found, out)) else At(file, call, Cleanup)
  {
    hide FullOutput;
  }

  lemma RenameStep(file: string, call: Call, text: string, ok: bool)
    ensures Next(Written(file, call, Flushed(1), text), Rename(0, ok)) ==
            if ok then After(call, Unlocking(0), [file, text], true, Some(0)) else Written(file, call, Cleanup, text)
  {
  }

  lemma UnlinkStep(file: string, call: Call, text: string)
    ensures Next(Written(file, call, Cleanup, text), Unlink(0)) == After(call, Unlocking(-1), [file, text], false, Some(0))
    ensures Next(After(call, Unlocking(0), [file, text], true, Some(0)), Unlink(0)) ==
            After(call, Unlocking(0), [file, text], true, Some(0))
  {
  }

  lemma UnlockStep(call: Call, rc: int, inodes: seq<string>, renamed: bool)
    requires inodes != [] && (renamed ==> |inodes| == 2)
    ensures Next(After(call, Unlocking(rc), inodes, renamed, Some(0)), Unlock(0)) ==
            After(call, Returned(rc), inodes, renamed, None)
    ensures Outcome(After(call, Returned(rc), inodes, renamed, None), rc, inodes[if renamed then 1 else 0])
  {
  }

  lemma ClosingCopy(file: string, call: Call, found: bool, out: string, flushed: bool, renamed: bool)
    ensures var s := Run(At(file, call, Copying(0, 1, |file|, found, out)), Closing(flushed, renamed));
            if flushed && renamed then Outcome(s, 0, FullOutput(call, found, out)) else Outcome(s, -1, file)
  {
    if flushed {
      var text := FullOutput(call, found, out);
      hide Next, FullOutput, Outcome;
      FourSteps(At(file, call, Copying(0, 1, |file|, found, out)),
                Flush(0, flushed), Rename(0, renamed), Unlink(0), Unlock(0));
      FlushStep(file, call, found, out, true);
      RenameStep(file, call, text, renamed);
      UnlinkStep(file, call, text);
      UnlockStep(call, if renamed then 0 else -1, [file, text], renamed);
    } else {
      hide Next, FullOutput, Outcome;
      FourSteps(At(file, call, Copying(0, 1, |file|, found, out)),
                Flush(0, flushed), Rename(0, renamed), Unlink(0), Unlock(0));
      FlushStep(file, call, found, out, false);
      CleanupSteps(file, call, renamed);
    }
  }

  lemma CleanupSteps(file: string, call: Call, renamed: bool)
    ensures Outcome(Next(Next(Next(At(file, call, Cleanup), Rename(0, renamed)), Unlink(0)), Unlock(0)), -1, file)
  {
    assert Next(At(file, call, Cleanup), Rename(0, renamed)) == Written(file, call, Cleanup, "");
    hide Next, Outcome;
    UnlinkStep(file, call, "");
    UnlockStep(call, -1, [file, ""], false);
  }

  lemma ClosingFailed(file: string, call: Call, flushed: bool, renamed: bool)
    ensures Outcome(Run(At(file, call, Cleanup), Closing(flushed, renamed)), -1, file)
  {
    FourSteps(At(file, call, Cleanup), Flush(0, flushed), Rename(0, renamed), Unlink(0), Unlock(0));
    assert Next(At(file, call, Cleanup), Flush(0, flushed)) == At(file, call, Cleanup);
    hide Next, Outcome;
    CleanupSteps(file, call, renamed);
  }

  lemma EndingIdles(file: string, call: Call, pc: Pc, lock: Option<nat>, flushed: bool, renamed: bool)
    requires pc == Returned(-1) || pc == Unlocking(-1)
    ensures var s := Ending(file, call, pc, lock);
            Next(s, Flush(0, flushed)) == s && Next(s, Rename(0, renamed)) == s && Next(s, Unlink(0)) == s
    ensures pc == Returned(-1) ==> Next(Ending(file, call, pc, lock), Unlock(0)) == Ending(file, call, pc, lock)
  {
  }

  lemma ClosingEarly(file: string, call: Call, pc: Pc, lock: Option<nat>, flushed: bool, renamed: bool)
    requires (pc == Returned(-1) && lock == None) || (pc == Unlocking(-1) && lock == Some(0))
    ensures Outcome(Run(Ending(file, call, pc, lock), Closing(flushed, renamed)), -1, file)
  {
    hide Next, Outcome;
    FourSteps(Ending(file, call, pc, lock), Flush(0, flushed), Rename(0, renamed), Unlink(0), Unlock(0));
    EndingIdles(file, call, pc, lock, flushed, renamed);
    UnlockStep(call, -1, [file], false);
  }

  lemma {:induction false} EndingSkips(file: string, call: Call, pc: Pc, lock: Option<nat>, n: nat,
                                       io: SetHashIo, printed: nat)
    requires pc == Returned(-1) || pc == Unlocking(-1)
    ensures Run(Ending(file, call, pc, lock), CopyScript(n, io, printed)) == Ending(file, call, pc, lock)
  {
    if n > 0 {
      EndingSkips(file, call, pc, lock, n - 1, io, printed + 1);
      assert CopyScript(n, io, printed)[1..] == CopyScript(n - 1, io, printed + 1);
      assert Next(Ending(file, call, pc, lock), CopyLine(0, io.put(printed))) == Ending(file, call, pc, lock);
    }
  }

  lemma AllPutIs(file: string, user: string, io: SetHashIo)
    ensures var ls := Chunks(file);
            AllPut(Prints(file, user), io) <==> Puts(|ls|, io, 0) && (Listed(ls, user) || io.put(|ls|))
  {
    hide Chunks, Listed, Prints, SetHash, Copied, Entry;
    CopiedAll(file, user, "");
    PutsMeans(|Chunks(file)|, io, 0);
  }

  lemma InitTyped(file: string, call: Call)
    ensures WellTyped(Init(file, [call], []))
  {
  }

  lemma WholeOutput(call: Call, found: bool, out: string)
    ensures FullOutput(call, found, out) == out + if found then "" else Entry(call.user, call.hash, AGING)
  {
    assert out + "" == out;
  }

  /**
    A writer alone, with the lock free and the same answers from the environment, returns what the routine returns
    and leaves the file that the routine leaves.
   */
  lemma SoloWriter(file: Option<string>, user: string, hash: string, io: SetHashIo)
    requires io.flock(0)
    ensures var s := Run(Init(Get(file, ""), [Call(user, hash)], []), Script(file, user, io));
            if UpdateRuns(file, user, io) then Outcome(s, 0, SetHash(file.value, user, hash))
            else Outcome(s, -1, Get(file, ""))
  {
    hide Next, Chunks, Listed, Copied, SetHash, Prints, Entry, Init, AllPut, Puts, Run, Outcome;
    var text, call := Get(file, ""), Call(user, hash);
    var ls := Chunks(text);
    var flushed := io.fflush && (Listed(ls, user) || io.put(|ls|));
    var opening := [Begin(0, io.openLock), TryLock(0), OpenSource(0, file.Some?), OpenTemp(0, io.openTemp)];
    var copying := CopyScript(|ls|, io, 0);
    var s0 := Init(text, [call], []);
    InitTyped(text, call);
    assert LockGranted(io) <==> io.openLock;
    Opening(file, call, io);
    RunConcat(s0, opening + copying, Closing(flushed, io.rename));
    RunConcat(s0, opening, copying);
    var s := Run(s0, opening);
    if user != "" && io.openLock && file.Some? && io.openTemp {
      CopySolo(text, call, 0, false, "", io, 0);
      assert text[0..] == text && "" + Copied(text, user, hash) == Copied(text, user, hash);
      AllPutIs(text, user, io);
      CopiedAll(text, user, hash);
      WholeOutput(call, Listed(ls, user), Copied(text, user, hash));
      if Puts(|ls|, io, 0) {
        ClosingCopy(text, call, Listed(ls, user), Copied(text, user, hash), flushed, io.rename);
      } else {
        ClosingFailed(text, call, flushed, io.rename);
      }
    } else {
      EndingSkips(text, call, s.pcs[0], s.lock, |ls|, io, 0);
      ClosingEarly(text, call, s.pcs[0], s.lock, flushed, io.rename);
    }
  }
}
