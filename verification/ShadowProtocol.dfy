/**
  Any number of `ir0_shadow_set_hash` processes and unlocked `ir0_shadow_hash`
  readers, interleaved call by call. Open files are inodes, so a reader that
  opened the shadow file before a rename goes on reading the old inode. Every
  call may fail and every process may die between two calls.
 */
module ShadowProtocol {
  import opened Text
  import opened Fields
  import opened Shadow

  datatype Call = Call(user: string, hash: string)

  /** Where a writer stands in `ir0_shadow_set_hash`. */
  datatype Pc =
    | Idle
    | Locking(tries: nat)
    | Locked
    | HasSource(src: nat)
    | Copying(src: nat, tmp: nat, pos: nat, found: bool, out: string)
    | Flushed(tmp: nat)
    | Cleanup
    | Unlocking(rc: int)
    | Returned(rc: int)
    | Dead

  /** An unlocked reader; `version` counts the renames done when it opened the file. */
  datatype Reader =
    | Waiting(user: string)
    | Reading(user: string, inode: nat, version: nat, pos: nat)
    | Answered(user: string, version: nat, answer: Option<string>)

  datatype State = State(calls: seq<Call>, pcs: seq<Pc>, readers: seq<Reader>,
                         inodes: seq<string>, live: nat, temp: Option<nat>, lock: Option<nat>,
                         versions: seq<nat>, history: seq<nat>)

  datatype Action =
    | Begin(p: nat, ok: bool)
    | TryLock(p: nat)
    | OpenSource(p: nat, ok: bool)
    | OpenTemp(p: nat, ok: bool)
    | CopyLine(p: nat, ok: bool)
    | Spill(p: nat, n: nat)
    | Flush(p: nat, ok: bool)
    | Rename(p: nat, ok: bool)
    | Unlink(p: nat)
    | Unlock(p: nat)
    | Die(p: nat)
    | ReaderOpen(r: nat)
    | ReaderNext(r: nat)

  function Init(initial: string, calls: seq<Call>, users: seq<string>): State {
    State(calls, seq(|calls|, i => Idle), seq(|users|, i requires 0 <= i < |users| => Waiting(users[i])),
          [initial], 0, None, None, [0], [])
  }

  predicate WellTyped(s: State) {
    |s.pcs| == |s.calls| && s.live < |s.inodes| && (s.temp.Some? ==> s.temp.value < |s.inodes|)
  }

  /** The inodes a writer has open exist. */
  predicate HandlesOpen(s: State, pc: Pc) {
    match pc
    case HasSource(src) => src < |s.inodes|
    case Copying(src, tmp, pos, _, _) => src < |s.inodes| && tmp < |s.inodes| && pos <= |s.inodes[src]|
    case Flushed(tmp) => tmp < |s.inodes|
    case _ => true
  }

  function Goto(s: State, p: nat, pc: Pc): State
    requires p < |s.pcs|
  {
    s.(pcs := s.pcs[p := pc])
  }

  /** Truncates the temporary file if it is there, else creates it. */
  function CreateTemp(s: State): (t: (State, nat))
    requires s.temp.Some? ==> s.temp.value < |s.inodes|
  {
    match s.temp
    case Some(i) => (s.(inodes := s.inodes[i := ""]), i)
    case None => (s.(inodes := s.inodes + [""], temp := Some(|s.inodes|)), |s.inodes|)
  }

  /** Everything the copying loop and the final append print, once the source is at its end. */
  function FullOutput(call: Call, found: bool, out: string): string {
    if found then out else out + Entry(call.user, call.hash, AGING)
  }

  /** One step of a writer. A step that is not the process's next call changes nothing. */
  function WriterStep(s: State, p: nat, a: Action): (t: State)
    requires WellTyped(s) && p < |s.pcs| && HandlesOpen(s, s.pcs[p])
    ensures WellTyped(t) && t.calls == s.calls
  {
    var call := s.calls[p];
    match (a, s.pcs[p])
    case (Begin(_, ok), Idle) => Goto(s, p, if call.user == "" || !ok then Returned(-1) else Locking(0))
    case (TryLock(_), Locking(tries)) =>
      if tries >= LOCK_TRIES then Goto(s, p, Returned(-1))
      else if s.lock == None then Goto(s, p, Locked).(lock := Some(p))
      else Goto(s, p, Locking(tries + 1))
    case (OpenSource(_, ok), Locked) => Goto(s, p, if ok then HasSource(s.live) else Unlocking(-1))
    case (OpenTemp(_, ok), HasSource(src)) =>
      if !ok then Goto(s, p, Unlocking(-1))
      else var t := CreateTemp(s); Goto(t.0, p, Copying(src, t.1, 0, false, ""))
    case (CopyLine(_, ok), Copying(src, tmp, pos, found, out)) =>
      var unread := s.inodes[src][pos..];
      if unread == "" then s
      else if !ok then Goto(s, p, Cleanup)
      else
        var line := FirstChunk(unread);
        Goto(s, p, Copying(src, tmp, pos + |line|, found || Named(line, call.user),
                           out + Rewrite(line, call.user, call.hash)))
    case (Spill(_, n), Copying(_, tmp, _, _, out)) =>
      if n <= |out| then s.(inodes := s.inodes[tmp := out[..n]]) else s
    case (Flush(_, ok), Copying(src, tmp, pos, found, out)) =>
      if pos < |s.inodes[src]| then s
      else if !ok then Goto(s, p, Cleanup)
      else Goto(s, p, Flushed(tmp)).(inodes := s.inodes[tmp := FullOutput(call, found, out)])
    case (Rename(_, ok), Flushed(tmp)) =>
      if !ok then Goto(s, p, Cleanup)
      else Goto(s, p, Unlocking(0)).(live := tmp, temp := None,
                                     versions := s.versions + [tmp], history := s.history + [p])
    case (Unlink(_), Cleanup) => Goto(s, p, Unlocking(-1)).(temp := None)
    case (Unlock(_), Unlocking(rc)) => Goto(s, p, Returned(rc)).(lock := None)
    case (Die(_), Returned(_)) => s
    case (Die(_), _) => Goto(s, p, Dead).(lock := if s.lock == Some(p) then None else s.lock)
    case _ => s
  }

  function ReaderStep(s: State, r: nat, a: Action): (t: State)
    requires WellTyped(s) && r < |s.readers|
    ensures WellTyped(t) && t.calls == s.calls
  {
    match (a, s.readers[r])
    case (ReaderOpen(_), Waiting(user)) =>
      s.(readers := s.readers[r := Reading(user, s.live, |s.history|, 0)])
    case (ReaderNext(_), Reading(user, inode, version, pos)) =>
      if inode >= |s.inodes| || pos > |s.inodes[inode]| then s
      else
        var unread := s.inodes[inode][pos..];
        if unread == "" then s.(readers := s.readers[r := Answered(user, version, None)])
        else
          var line := FirstChunk(unread);
          if Named(line, user)
          then s.(readers := s.readers[r := Answered(user, version, Field(line, 1, HASH_MAX))])
          else s.(readers := s.readers[r := Reading(user, inode, version, pos + |line|)])
    case _ => s
  }

  predicate IsReaderAction(a: Action) {
    a.ReaderOpen? || a.ReaderNext?
  }

  function Next(s: State, a: Action): (t: State)
    requires WellTyped(s)
    ensures WellTyped(t) && t.calls == s.calls
  {
    if IsReaderAction(a) then (if a.r < |s.readers| then ReaderStep(s, a.r, a) else s)
    else if a.p < |s.pcs| && HandlesOpen(s, s.pcs[a.p]) then WriterStep(s, a.p, a) else s
  }

  // ---- The invariant ----

  predicate InOrder(s: State) {
    && (forall i :: 0 <= i < |s.history| ==> s.history[i] < |s.calls|)
    && (forall i, j :: 0 <= i < j < |s.history| ==> s.history[i] != s.history[j])
  }

  /** The original file with the first `k` completed updates applied in the order of their renames. */
  function Version(s: State, initial: string, k: nat): string
    requires InOrder(s) && k <= |s.history|
  {
    if k == 0 then initial
    else
      var call := s.calls[s.history[k - 1]];
      SetHash(Version(s, initial, k - 1), call.user, call.hash)
  }

  lemma {:induction false} VersionsAgree(s: State, t: State, initial: string, k: nat)
    requires InOrder(s) && InOrder(t) && t.calls == s.calls && s.history <= t.history && k <= |s.history|
    ensures Version(t, initial, k) == Version(s, initial, k)
  {
    hide SetHash;
    if k > 0 {
      VersionsAgree(s, t, initial, k - 1);
    }
  }

  /** Every version of the file is still there, in the inode it was written to. */
  predicate VersionsKept(s: State, initial: string)
    requires InOrder(s)
  {
    && |s.versions| == |s.history| + 1 && s.live == s.versions[|s.history|]
    && (forall k :: 0 <= k <= |s.history| ==> s.versions[k] < |s.inodes|)
    && (forall k :: 0 <= k <= |s.history| ==>
          s.inodes[s.versions[k]] == Version(s, initial, k))
    && (s.temp.Some? ==> s.temp.value !in s.versions)
  }

  predicate Holds(s: State, q: nat) {
    s.lock == Some(q)
  }

  predicate CopyGoes(s: State, q: nat)
    requires WellTyped(s) && q < |s.pcs| && s.pcs[q].Copying? && HandlesOpen(s, s.pcs[q])
  {
    var Copying(src, tmp, pos, found, out) := s.pcs[q];
    var call := s.calls[q];
    && out + Copied(s.inodes[src][pos..], call.user, call.hash) == Copied(s.inodes[src], call.user, call.hash)
    && (found || Listed(Chunks(s.inodes[src][pos..]), call.user) <==> Listed(Chunks(s.inodes[src]), call.user))
  }

  predicate WriterOk(s: State, q: nat)
    requires WellTyped(s) && q < |s.pcs|
  {
    HandlesOpen(s, s.pcs[q]) &&
    match s.pcs[q]
    case Idle => !Holds(s, q) && q !in s.history
    case Locking(_) => !Holds(s, q) && q !in s.history
    case Locked => Holds(s, q) && q !in s.history
    case HasSource(src) => Holds(s, q) && q !in s.history && src == s.live
    case Copying(src, tmp, _, _, _) =>
      Holds(s, q) && q !in s.history && src == s.live && s.temp == Some(tmp) && CopyGoes(s, q)
    case Flushed(tmp) =>
      Holds(s, q) && q !in s.history && s.temp == Some(tmp)
      && s.inodes[tmp] == SetHash(s.inodes[s.live], s.calls[q].user, s.calls[q].hash)
    case Cleanup => Holds(s, q) && q !in s.history
    case Unlocking(rc) => Holds(s, q) && (rc == 0 || rc == -1) && (rc == 0 <==> q in s.history)
    case Returned(rc) => !Holds(s, q) && (rc == 0 || rc == -1) && (rc == 0 <==> q in s.history)
    case Dead => !Holds(s, q)
  }

  predicate ReaderOk(s: State, initial: string, r: nat)
    requires WellTyped(s) && InOrder(s) && VersionsKept(s, initial) && r < |s.readers|
  {
    match s.readers[r]
    case Waiting(_) => true
    case Reading(user, inode, version, pos) =>
      && version <= |s.history| && inode == s.versions[version] && pos <= |s.inodes[inode]|
      && Lookup(s.inodes[inode][pos..], user, HASH_MAX) == Lookup(s.inodes[inode], user, HASH_MAX)
    case Answered(user, version, answer) =>
      version <= |s.history|
      && answer == Lookup(Version(s, initial, version), user, HASH_MAX)
  }

  predicate Inv(s: State, initial: string) {
    && WellTyped(s) && InOrder(s) && VersionsKept(s, initial)
    && (forall q :: 0 <= q < |s.pcs| ==> WriterOk(s, q))
    && (forall r :: 0 <= r < |s.readers| ==> ReaderOk(s, initial, r))
  }

  // ---- Preservation ----

  predicate SameFiles(s: State, t: State) {
    t.inodes == s.inodes && t.live == s.live && t.temp == s.temp && t.lock == s.lock && t.history == s.history
  }

  /** What a step of `p` may do to the others: nothing to their place, and nothing to the files another one has locked. */
  predicate Frame(s: State, t: State, p: nat) {
    && t.calls == s.calls && |t.pcs| == |s.pcs|
    && (forall q :: 0 <= q < |s.pcs| && q != p ==> t.pcs[q] == s.pcs[q])
    && (SameFiles(s, t) || s.lock == Some(p) || s.lock == None)
    && (t.lock == s.lock || t.lock == None || t.lock == Some(p))
    && (t.history == s.history || t.history == s.history + [p])
  }

  lemma OtherKept(s: State, t: State, p: nat, q: nat)
    requires WellTyped(s) && WellTyped(t) && Frame(s, t, p)
    requires q < |s.pcs| && q != p && WriterOk(s, q)
    ensures WriterOk(t, q)
  {
    hide SetHash;
    if SameFiles(s, t) && s.pcs[q].Copying? {
      assert CopyGoes(s, q);
    }
  }

  lemma OthersKept(s: State, t: State, initial: string, p: nat)
    requires Inv(s, initial) && WellTyped(t) && Frame(s, t, p)
    ensures forall q :: 0 <= q < |s.pcs| && q != p ==> WriterOk(t, q)
  {
    forall q | 0 <= q < |s.pcs| && q != p
      ensures WriterOk(t, q)
    {
      OtherKept(s, t, p, q);
    }
  }

  /** Readers follow old versions, which a step that keeps the version inodes leaves alone. */
  lemma ReadersKept(s: State, t: State, initial: string)
    requires Inv(s, initial) && WellTyped(t) && InOrder(t) && VersionsKept(t, initial)
    requires t.readers == s.readers && t.calls == s.calls
    requires s.history <= t.history && s.versions <= t.versions
    ensures forall r :: 0 <= r < |t.readers| ==> ReaderOk(t, initial, r)
  {
    forall r | 0 <= r < |t.readers|
      ensures ReaderOk(t, initial, r)
    {
      assert ReaderOk(s, initial, r);
      if !s.readers[r].Waiting? {
        VersionsAgree(s, t, initial, s.readers[r].version);
      }
    }
  }

  /** A step that changes neither the versions nor the history keeps them. */
  lemma VersionsFrame(s: State, t: State, initial: string)
    requires Inv(s, initial) && t.calls == s.calls && t.history == s.history && t.versions == s.versions
    requires t.live == s.live && |s.inodes| <= |t.inodes|
    requires forall i :: i in s.versions && 0 <= i < |s.inodes| ==> t.inodes[i] == s.inodes[i]
    requires t.temp.Some? ==> t.temp.value !in s.versions
    ensures InOrder(t) && VersionsKept(t, initial)
  {
    hide SetHash;
    forall k | 0 <= k <= |s.history|
      ensures Version(t, initial, k) == Version(s, initial, k)
    {
      VersionsAgree(s, t, initial, k);
    }
  }

  /** A step of `p` that keeps the versions and leaves `p` in order keeps the invariant. */
  lemma StepKeeps(s: State, t: State, p: nat, initial: string)
    requires Inv(s, initial) && WellTyped(t) && Frame(s, t, p) && p < |s.pcs|
    requires InOrder(t) && VersionsKept(t, initial) && WriterOk(t, p)
    requires t.readers == s.readers && s.history <= t.history && s.versions <= t.versions
    ensures Inv(t, initial)
  {
    hide WriterOk, VersionsKept, InOrder, ReaderOk;
    OthersKept(s, t, initial, p);
    ReadersKept(s, t, initial);
  }

  lemma CopyGoesOn(file: string, pos: nat, user: string, hash: string)
    requires pos < |file|
    ensures var unread, line := file[pos..], FirstChunk(file[pos..]);
            && pos + |line| <= |file|
            && Copied(unread, user, hash) == Rewrite(line, user, hash) + Copied(file[pos + |line|..], user, hash)
            && (Listed(Chunks(unread), user) <==> Named(line, user) || Listed(Chunks(file[pos + |line|..]), user))
  {
    hide Named, Rewrite, Listed, Copied, Chunks;
    var unread := file[pos..];
    CopyStep(unread, user, hash);
    assert file[pos + |FirstChunk(unread)|..] == AfterChunk(unread);
  }

  lemma CopyLineKeeps(s: State, p: nat, initial: string)
    requires Inv(s, initial) && p < |s.pcs| && s.pcs[p].Copying?
    requires WriterOk(s, p) && s.pcs[p].pos < |s.inodes[s.pcs[p].src]|
    ensures Inv(WriterStep(s, p, CopyLine(p, true)), initial)
  {
    hide Named, Rewrite, SetHash, Listed, Copied, Chunks, FirstChunk, AfterChunk, ReaderOk, Version;
    var t := WriterStep(s, p, CopyLine(p, true));
    var call := s.calls[p];
    CopyGoesOn(s.inodes[s.pcs[p].src], s.pcs[p].pos, call.user, call.hash);
    assert CopyGoes(t, p);
    VersionsFrame(s, t, initial);
    StepKeeps(s, t, p, initial);
  }

  /** At the end of the source everything printed is the updated file. */
  lemma FlushOutput(s: State, p: nat)
    requires WellTyped(s) && p < |s.pcs| && s.pcs[p].Copying? && HandlesOpen(s, s.pcs[p]) && CopyGoes(s, p)
    requires s.pcs[p].pos == |s.inodes[s.pcs[p].src]|
    ensures var Copying(src, _, _, found, out) := s.pcs[p];
            FullOutput(s.calls[p], found, out) == SetHash(s.inodes[src], s.calls[p].user, s.calls[p].hash)
  {
    hide SetHash, Entry, Copied, Chunks, Listed;
    var Copying(src, tmp, pos, found, out) := s.pcs[p];
    CopiedAll(s.inodes[src], s.calls[p].user, s.calls[p].hash);
    assert s.inodes[src][pos..] == "";
  }

  lemma FlushKeeps(s: State, p: nat, initial: string)
    requires Inv(s, initial) && p < |s.pcs| && s.pcs[p].Copying?
    requires WriterOk(s, p) && s.pcs[p].pos == |s.inodes[s.pcs[p].src]|
    ensures Inv(WriterStep(s, p, Flush(p, true)), initial)
  {
    hide Named, Rewrite, SetHash, Entry, FullOutput, CopyGoes, Copied, Listed;
    var t := WriterStep(s, p, Flush(p, true));
    FlushOutput(s, p);
    VersionsFrame(s, t, initial);
    StepKeeps(s, t, p, initial);
  }

  lemma RenameKeeps(s: State, p: nat, initial: string)
    requires Inv(s, initial) && p < |s.pcs| && s.pcs[p].Flushed? && WriterOk(s, p)
    ensures Inv(WriterStep(s, p, Rename(p, true)), initial)
  {
    hide SetHash;
    var t := WriterStep(s, p, Rename(p, true));
    forall k | 0 <= k <= |s.history|
      ensures Version(t, initial, k) == Version(s, initial, k)
    {
      VersionsAgree(s, t, initial, k);
    }
    StepKeeps(s, t, p, initial);
  }

  lemma OpenTempKeeps(s: State, p: nat, initial: string)
    requires Inv(s, initial) && p < |s.pcs| && s.pcs[p].HasSource? && WriterOk(s, p)
    ensures Inv(WriterStep(s, p, OpenTemp(p, true)), initial)
  {
    hide SetHash;
    var t := WriterStep(s, p, OpenTemp(p, true));
    assert t.inodes[s.live] == s.inodes[s.live];
    assert t.inodes[s.live][0..] == t.inodes[s.live];
    VersionsFrame(s, t, initial);
    StepKeeps(s, t, p, initial);
  }

  lemma SpillKeeps(s: State, p: nat, n: nat, initial: string)
    requires Inv(s, initial) && p < |s.pcs| && s.pcs[p].Copying? && n <= |s.pcs[p].out| && WriterOk(s, p)
    ensures Inv(WriterStep(s, p, Spill(p, n)), initial)
  {
    hide SetHash, Copied, Listed, Chunks, ReaderOk, Version;
    var t := WriterStep(s, p, Spill(p, n));
    assert s.live in s.versions;
    assert t.inodes[s.live] == s.inodes[s.live];
    assert CopyGoes(t, p);
    VersionsFrame(s, t, initial);
    StepKeeps(s, t, p, initial);
  }

  /** A step that writes no inode and makes no version frames the others. */
  lemma ControlFrames(s: State, p: nat, a: Action, initial: string)
    requires Inv(s, initial) && p < |s.pcs| && !IsReaderAction(a) && WriterOk(s, p)
    requires (a.CopyLine? || a.Flush? || a.OpenTemp?) && a.ok ==> WriterStep(s, p, a) == s
    requires WriterStep(s, p, a).inodes == s.inodes && WriterStep(s, p, a).versions == s.versions
    ensures var t := WriterStep(s, p, a);
            && Frame(s, t, p) && WriterOk(t, p) && t.readers == s.readers && t.history == s.history && t.live == s.live
            && (t.temp.Some? ==> t.temp == s.temp)
  {
    hide SetHash, CopyGoes, Named, Rewrite, VersionsKept, InOrder, ReaderOk, FullOutput;
    assert WriterStep(s, p, a) == s ==> Frame(s, s, p);
  }

  /** The steps that write no inode and make no version. */
  lemma ControlKeeps(s: State, p: nat, a: Action, initial: string)
    requires Inv(s, initial) && p < |s.pcs| && !IsReaderAction(a) && WriterOk(s, p)
    requires (a.CopyLine? || a.Flush? || a.OpenTemp?) && a.ok ==> WriterStep(s, p, a) == s
    requires WriterStep(s, p, a).inodes == s.inodes && WriterStep(s, p, a).versions == s.versions
    ensures Inv(WriterStep(s, p, a), initial)
  {
    ControlFrames(s, p, a, initial);
    hide SetHash, CopyGoes, WriterStep, WriterOk, Frame, ReaderOk;
    var t := WriterStep(s, p, a);
    VersionsFrame(s, t, initial);
    StepKeeps(s, t, p, initial);
  }

  lemma WriterKeeps(s: State, p: nat, a: Action, initial: string)
    requires Inv(s, initial) && p < |s.pcs| && !IsReaderAction(a)
    requires HandlesOpen(s, s.pcs[p]) && WriterOk(s, p)
    ensures Inv(WriterStep(s, p, a), initial)
  {
    hide SetHash, CopyGoes, VersionsKept, Named, Rewrite, Inv, WriterOk;
    match (a, s.pcs[p])
    case (CopyLine(_, true), Copying(src, _, pos, _, _)) =>
      if pos < |s.inodes[src]| {
        CopyLineKeeps(s, p, initial);
      }
    case (Flush(_, true), Copying(src, _, pos, _, _)) =>
      if pos == |s.inodes[src]| {
        FlushKeeps(s, p, initial);
      }
    case (Rename(_, true), Flushed(_)) =>
      RenameKeeps(s, p, initial);
    case (OpenTemp(_, true), HasSource(_)) =>
      OpenTempKeeps(s, p, initial);
    case (Spill(_, n), Copying(_, _, _, _, out)) =>
      if n <= |out| {
        SpillKeeps(s, p, n, initial);
      }
    case _ =>
      ControlKeeps(s, p, a, initial);
  }

  /** Looking one line further is looking in the rest. */
  lemma LookFurther(file: string, pos: nat, user: string)
    requires pos <= |file|
    ensures file[pos..] == "" ==> Lookup(file[pos..], user, HASH_MAX) == None
    ensures file[pos..] != "" ==>
              var line := FirstChunk(file[pos..]);
              && pos + |line| <= |file|
              && Lookup(file[pos..], user, HASH_MAX) ==
                 if Named(line, user) then Field(line, 1, HASH_MAX) else Lookup(file[pos + |line|..], user, HASH_MAX)
  {
    hide Named, Field, ChunkLen;
    var unread := file[pos..];
    if unread != "" {
      assert FirstChunk(unread) == unread[..ChunkLen(unread, LINE_ROOM)];
      assert file[pos + |FirstChunk(unread)|..] == AfterChunk(unread);
      assert Chunks(unread)[1..] == Chunks(AfterChunk(unread));
    }
  }

  lemma ReaderStepOk(s: State, r: nat, a: Action, initial: string)
    requires Inv(s, initial) && r < |s.readers| && IsReaderAction(a) && ReaderOk(s, initial, r)
    requires WellTyped(ReaderStep(s, r, a)) && InOrder(ReaderStep(s, r, a)) && VersionsKept(ReaderStep(s, r, a), initial)
    ensures ReaderOk(ReaderStep(s, r, a), initial, r)
  {
    hide Named, Version, Lookup, Field, FirstChunk, WriterOk, InOrder;
    if s.readers[r].Reading? {
      var Reading(user, inode, version, pos) := s.readers[r];
      LookFurther(s.inodes[inode], pos, user);
      VersionsAgree(s, ReaderStep(s, r, a), initial, version);
    } else {
      assert s.inodes[s.live][0..] == s.inodes[s.live];
    }
  }

  lemma ReaderKeeps(s: State, r: nat, a: Action, initial: string)
    requires Inv(s, initial) && r < |s.readers| && IsReaderAction(a)
    ensures Inv(ReaderStep(s, r, a), initial)
  {
    hide WriterOk, Named, Version, FirstChunk, Field, Lookup, Frame;
    var t := ReaderStep(s, r, a);
    assert SameFiles(s, t) && t.pcs == s.pcs && t.versions == s.versions;
    assert forall k | 0 <= k < |t.readers| && k != r :: t.readers[k] == s.readers[k];
    VersionsFrame(s, t, initial);
    assert ReaderOk(s, initial, r);
    ReaderStepOk(s, r, a, initial);
    WritersUntouched(s, t);
    forall k | 0 <= k < |t.readers| && k != r
      ensures ReaderOk(t, initial, k)
    {
      assert ReaderOk(s, initial, k);
      if !s.readers[k].Waiting? {
        VersionsAgree(s, t, initial, s.readers[k].version);
      }
    }
  }

  lemma WritersUntouched(s: State, t: State)
    requires WellTyped(s) && WellTyped(t) && SameFiles(s, t) && t.pcs == s.pcs && t.calls == s.calls
    requires forall q :: 0 <= q < |s.pcs| ==> WriterOk(s, q)
    ensures forall q :: 0 <= q < |s.pcs| ==> WriterOk(t, q)
  {
    forall q | 0 <= q < |s.pcs|
      ensures WriterOk(t, q)
    {
      OtherKept(s, t, q + 1, q);
    }
  }

  lemma NextKeeps(s: State, a: Action, initial: string)
    requires Inv(s, initial)
    ensures Inv(Next(s, a), initial)
  {
    if IsReaderAction(a) {
      if a.r < |s.readers| {
        ReaderKeeps(s, a.r, a, initial);
      }
    } else if a.p < |s.pcs| {
      assert WriterOk(s, a.p);
      WriterKeeps(s, a.p, a, initial);
    }
  }

  // ---- Whole runs ----

  function Run(s: State, schedule: seq<Action>): (t: State)
    requires WellTyped(s)
    ensures WellTyped(t) && t.calls == s.calls
    decreases schedule
  {
    if schedule == [] then s else Run(Next(s, schedule[0]), schedule[1..])
  }

  lemma {:induction false} RunKeeps(s: State, schedule: seq<Action>, initial: string)
    requires Inv(s, initial)
    ensures Inv(Run(s, schedule), initial)
    decreases schedule
  {
    hide Next, WriterOk, ReaderOk, VersionsKept;
    if schedule != [] {
      NextKeeps(s, schedule[0], initial);
      RunKeeps(Next(s, schedule[0]), schedule[1..], initial);
    }
  }

  lemma InitInv(initial: string, calls: seq<Call>, users: seq<string>)
    ensures Inv(Init(initial, calls, users), initial)
  {
  }

  function LiveContent(s: State): string
    requires WellTyped(s)
  {
    s.inodes[s.live]
  }

  /**
    After any schedule of any calls, with failures and crashes anywhere: the live file
    is the original with the completed updates applied in rename order, each once; a
    process that returned 0 is among them and one that returned -1 is not.
   */
  lemma Linearizable(initial: string, calls: seq<Call>, users: seq<string>, schedule: seq<Action>)
    ensures var s := Run(Init(initial, calls, users), schedule);
            && WellTyped(s) && InOrder(s) && s.calls == calls
            && LiveContent(s) == Version(s, initial, |s.history|)
            && forall p :: 0 <= p < |s.pcs| && s.pcs[p].Returned? ==>
                 (s.pcs[p].rc == 0 || s.pcs[p].rc == -1) && (s.pcs[p].rc == 0 <==> p in s.history)
  {
    InitInv(initial, calls, users);
    var s := Run(Init(initial, calls, users), schedule);
    RunKeeps(Init(initial, calls, users), schedule, initial);
    forall p | 0 <= p < |s.pcs| && s.pcs[p].Returned?
      ensures (s.pcs[p].rc == 0 || s.pcs[p].rc == -1) && (s.pcs[p].rc == 0 <==> p in s.history)
    {
      assert WriterOk(s, p);
    }
  }

  /** A step leaves a reader its user and, once it has the file open, its version; updates are only added. */
  predicate ReaderStays(s: State, t: State, r: nat) {
    && s.history <= t.history && |t.pcs| == |s.pcs| && |t.readers| == |s.readers|
    && (r < |s.readers| ==>
          t.readers[r].user == s.readers[r].user
          && (!s.readers[r].Waiting? ==> !t.readers[r].Waiting? && t.readers[r].version == s.readers[r].version))
  }

  lemma NextStays(s: State, a: Action, r: nat)
    requires WellTyped(s)
    ensures ReaderStays(s, Next(s, a), r)
  {
    hide Named, FirstChunk, Field, Rewrite, FullOutput;
  }

  lemma {:induction false} RunStays(s: State, schedule: seq<Action>, r: nat)
    requires WellTyped(s)
    ensures ReaderStays(s, Run(s, schedule), r)
    decreases schedule
  {
    hide Next;
    if schedule != [] {
      NextStays(s, schedule[0], r);
      RunStays(Next(s, schedule[0]), schedule[1..], r);
    }
  }

  lemma {:induction false} RunConcat(s: State, a: seq<Action>, b: seq<Action>)
    requires WellTyped(s)
    ensures Run(s, a + b) == Run(Run(s, a), b)
    decreases a
  {
    hide Next;
    if a == [] {
      assert a + b == b;
    } else {
      assert (a + b)[1..] == a[1..] + b;
      RunConcat(Next(s, a[0]), a[1..], b);
    }
  }

  /** The state of a run before its step `n`. */
  function Before(initial: string, calls: seq<Call>, users: seq<string>, schedule: seq<Action>, n: nat): (s: State)
    requires n <= |schedule|
    ensures WellTyped(s)
  {
    Run(Init(initial, calls, users), schedule[..n])
  }

  /** Step `n` of the run is the one in which the reader opens the file. */
  predicate OpensAt(initial: string, calls: seq<Call>, users: seq<string>, schedule: seq<Action>, r: nat, n: nat) {
    n < |schedule| && schedule[n] == ReaderOpen(r) &&
    var s := Before(initial, calls, users, schedule, n);
    r < |s.readers| && s.readers[r].Waiting?
  }

  lemma {:induction false} SplitRun(initial: string, calls: seq<Call>, users: seq<string>, schedule: seq<Action>, n: nat)
    requires n < |schedule|
    ensures var s := Before(initial, calls, users, schedule, n);
            Run(Init(initial, calls, users), schedule) == Run(Next(s, schedule[n]), schedule[n + 1..])
  {
    hide Next;
    assert schedule == schedule[..n] + schedule[n..];
    RunConcat(Init(initial, calls, users), schedule[..n], schedule[n..]);
    assert schedule[n..][1..] == schedule[n + 1..];
  }

  /** A reader that has the file open opened it in some step of the run. */
  lemma {:induction false} WasOpened(initial: string, calls: seq<Call>, users: seq<string>, schedule: seq<Action>, r: nat)
    requires r < |users|
    ensures var t := Run(Init(initial, calls, users), schedule);
            && |t.readers| == |users|
            && (!t.readers[r].Waiting? ==> exists n :: OpensAt(initial, calls, users, schedule, r, n))
    decreases |schedule|
  {
    RunStays(Init(initial, calls, users), schedule, r);
    if schedule != [] {
      var n := |schedule| - 1;
      var init := schedule[..n];
      WasOpened(initial, calls, users, init, r);
      SplitRun(initial, calls, users, schedule, n);
      RunStays(Init(initial, calls, users), init, r);
      var s := Before(initial, calls, users, schedule, n);
      if s.readers[r].Waiting? {
        OpeningOpens(s, schedule[n], r);
        assert schedule[n] == ReaderOpen(r) ==> OpensAt(initial, calls, users, schedule, r, n);
      } else {
        var m: nat :| OpensAt(initial, calls, users, init, r, m);
        assert init[..m] == schedule[..m];
        assert OpensAt(initial, calls, users, schedule, r, m);
      }
    }
  }

  lemma OpeningOpens(s: State, a: Action, r: nat)
    requires WellTyped(s) && r < |s.readers| && s.readers[r].Waiting?
    ensures Next(s, a).readers[r].Waiting? <==> a != ReaderOpen(r)
    ensures a == ReaderOpen(r) ==>
              Next(s, a).readers[r].version == |s.history| && CallsLeft(Next(s, a), r) == |LiveContent(s)| + 1
  {
    hide Named, FirstChunk, Field, Rewrite, FullOutput;
  }

  /**
    Every answer an unlocked reader got is the lookup of its user in the file that was live at the step in which
    it opened it: the original with exactly the updates applied that were renamed in before, every one among them
    that had returned 0.
   */
  lemma ReadersSeeOneVersion(initial: string, calls: seq<Call>, users: seq<string>, schedule: seq<Action>, r: nat)
    requires r < |users|
    ensures var t := Run(Init(initial, calls, users), schedule);
            && InOrder(t) && |t.readers| == |users|
            && (t.readers[r].Answered? ==>
                  && (exists n :: OpensAt(initial, calls, users, schedule, r, n))
                  && forall n :: OpensAt(initial, calls, users, schedule, r, n) ==>
                       var s := Before(initial, calls, users, schedule, n);
                       && t.readers[r].answer == Lookup(LiveContent(s), users[r], HASH_MAX)
                       && s.history <= t.history && LiveContent(s) == Version(t, initial, |s.history|)
                       && forall p :: 0 <= p < |s.pcs| && s.pcs[p] == Returned(0) ==> p in t.history[..|s.history|])
  {
    hide Lookup;
    InitInv(initial, calls, users);
    var first := Init(initial, calls, users);
    var t := Run(first, schedule);
    RunKeeps(first, schedule, initial);
    RunStays(first, schedule, r);
    WasOpened(initial, calls, users, schedule, r);
    if t.readers[r].Answered? {
      assert ReaderOk(t, initial, r);
      forall n | OpensAt(initial, calls, users, schedule, r, n)
        ensures var s := Before(initial, calls, users, schedule, n);
                && t.readers[r].answer == Lookup(LiveContent(s), users[r], HASH_MAX)
                && s.history <= t.history && LiveContent(s) == Version(t, initial, |s.history|)
                && forall p :: 0 <= p < |s.pcs| && s.pcs[p] == Returned(0) ==> p in t.history[..|s.history|]
      {
        OpenedVersion(initial, calls, users, schedule, r, n);
      }
    }
  }

  lemma OpenedVersion(initial: string, calls: seq<Call>, users: seq<string>, schedule: seq<Action>, r: nat, n: nat)
    requires OpensAt(initial, calls, users, schedule, r, n)
    ensures var s := Before(initial, calls, users, schedule, n); var t := Run(Init(initial, calls, users), schedule);
            && InOrder(t) && s.history <= t.history && LiveContent(s) == Version(t, initial, |s.history|)
            && r < |t.readers| && !t.readers[r].Waiting? && t.readers[r].version == |s.history|
            && forall p :: 0 <= p < |s.pcs| && s.pcs[p] == Returned(0) ==> p in t.history[..|s.history|]
  {
    var first := Init(initial, calls, users);
    var s, t := Before(initial, calls, users, schedule, n), Run(first, schedule);
    InitInv(initial, calls, users);
    RunKeeps(first, schedule, initial);
    RunKeeps(first, schedule[..n], initial);
    SplitRun(initial, calls, users, schedule, n);
    OpeningOpens(s, schedule[n], r);
    NextStays(s, schedule[n], r);
    RunStays(Next(s, schedule[n]), schedule[n + 1..], r);
    VersionsAgree(s, t, initial, |s.history|);
    assert t.history[..|s.history|] == s.history;
    forall p | 0 <= p < |s.pcs| && s.pcs[p] == Returned(0) ensures p in s.history {
      assert WriterOk(s, p);
    }
  }

  // ---- Readers get an answer ----

  /** How many calls of a reader that has opened the file are left at most. */
  function CallsLeft(s: State, r: nat): nat
    requires r < |s.readers|
  {
    match s.readers[r]
    case Reading(_, inode, _, pos) =>
      if inode < |s.inodes| && pos <= |s.inodes[inode]| then |s.inodes[inode]| - pos + 1 else 0
    case _ => 0
  }

  /** How many of these steps are the reader's next call. */
  function ReaderCalls(schedule: seq<Action>, r: nat): nat {
    if schedule == [] then 0
    else (if schedule[0] == ReaderNext(r) then 1 else 0) + ReaderCalls(schedule[1..], r)
  }

  /** The file a reader has open is its version, and the reader is inside it. */
  lemma OpenFile(s: State, r: nat, initial: string)
    requires Inv(s, initial) && r < |s.readers| && s.readers[r].Reading?
    ensures InOrder(s) && s.readers[r].version <= |s.history| && s.readers[r].inode < |s.inodes|
    ensures s.readers[r].pos <= |s.inodes[s.readers[r].inode]|
    ensures s.inodes[s.readers[r].inode] == Version(s, initial, s.readers[r].version)
  {
    hide WriterOk, Lookup, Version;
    assert ReaderOk(s, initial, r);
  }

  /** The next call of a reader answers, or goes on behind the line it read. */
  lemma ReaderMoves(s: State, r: nat)
    requires WellTyped(s) && r < |s.readers| && s.readers[r].Reading?
    requires s.readers[r].inode < |s.inodes| && s.readers[r].pos <= |s.inodes[s.readers[r].inode]|
    ensures var t := Next(s, ReaderNext(r)); var Reading(_, inode, _, pos) := s.readers[r];
            && t.inodes == s.inodes
            && (t.readers[r].Answered? ||
                (t.readers[r].Reading? && t.readers[r].inode == inode && pos < t.readers[r].pos <= |s.inodes[inode]|))
  {
    var Reading(user, inode, version, pos) := s.readers[r];
    var unread := s.inodes[inode][pos..];
    if unread != "" {
      assert 0 < |FirstChunk(unread)| <= |unread|;
    }
    hide Named, Field, FirstChunk, WriterStep;
  }

  lemma ReaderProgress(s: State, r: nat, initial: string)
    requires Inv(s, initial) && r < |s.readers| && s.readers[r].Reading?
    ensures CallsLeft(s, r) > 0 && CallsLeft(Next(s, ReaderNext(r)), r) < CallsLeft(s, r)
  {
    OpenFile(s, r, initial);
    assert WellTyped(s);
    hide Inv, InOrder, WellTyped, Version, Next;
    ReaderMoves(s, r);
  }

  lemma ReaderUntouched(s: State, a: Action, r: nat)
    requires WellTyped(s) && r < |s.readers| && !s.readers[r].Waiting? && a != ReaderNext(r)
    ensures r < |Next(s, a).readers| && Next(s, a).readers[r] == s.readers[r]
  {
    hide Named, Field, FirstChunk, Rewrite, FullOutput;
  }

  lemma OtherSteps(s: State, a: Action, r: nat, initial: string)
    requires Inv(s, initial) && r < |s.readers| && !s.readers[r].Waiting? && a != ReaderNext(r)
    ensures r < |Next(s, a).readers| && CallsLeft(Next(s, a), r) == CallsLeft(s, r)
  {
    var t := Next(s, a);
    ReaderUntouched(s, a, r);
    NextStays(s, a, r);
    NextKeeps(s, a, initial);
    if s.readers[r].Reading? {
      OpenFile(s, r, initial);
      OpenFile(t, r, initial);
      VersionsAgree(s, t, initial, s.readers[r].version);
      hide Next, Version, Inv, InOrder;
    }
  }

  lemma {:induction false} ReaderRuns(s: State, schedule: seq<Action>, r: nat, initial: string)
    requires Inv(s, initial) && r < |s.readers| && !s.readers[r].Waiting?
    requires ReaderCalls(schedule, r) >= CallsLeft(s, r)
    ensures var t := Run(s, schedule); r < |t.readers| && t.readers[r].Answered?
    decreases |schedule|
  {
    assert WellTyped(s);
    hide Next, Inv, CallsLeft;
    if s.readers[r].Reading? {
      ReaderProgress(s, r, initial);
    }
    if schedule != [] {
      var t := Next(s, schedule[0]);
      NextKeeps(s, schedule[0], initial);
      NextStays(s, schedule[0], r);
      if schedule[0] != ReaderNext(r) {
        OtherSteps(s, schedule[0], r, initial);
      } else if s.readers[r].Answered? {
        AnswerStays(s, r);
      }
      ReaderRuns(t, schedule[1..], r, initial);
    }
  }

  lemma AnswerStays(s: State, r: nat)
    requires WellTyped(s) && r < |s.readers| && s.readers[r].Answered?
    ensures Next(s, ReaderNext(r)) == s && CallsLeft(s, r) == 0
  {
  }

  /** A reader that makes more calls than the file it opened has bytes has its answer, whatever the others do. */
  lemma ReadersAnswer(initial: string, calls: seq<Call>, users: seq<string>, schedule: seq<Action>, r: nat, n: nat)
    requires OpensAt(initial, calls, users, schedule, r, n)
    requires ReaderCalls(schedule[n + 1..], r) > |LiveContent(Before(initial, calls, users, schedule, n))|
    ensures var t := Run(Init(initial, calls, users), schedule); r < |t.readers| && t.readers[r].Answered?
  {
    var s := Before(initial, calls, users, schedule, n);
    InitInv(initial, calls, users);
    RunKeeps(Init(initial, calls, users), schedule[..n], initial);
    NextKeeps(s, schedule[n], initial);
    SplitRun(initial, calls, users, schedule, n);
    OpeningOpens(s, schedule[n], r);
    NextStays(s, schedule[n], r);
    ReaderRuns(Next(s, schedule[n]), schedule[n + 1..], r, initial);
  }

  /** Only the lock holder changes the bytes of any file, and only a rename that succeeds moves the live one. */
  lemma OnlyHolderWrites(s: State, a: Action, initial: string)
    requires Inv(s, initial)
    ensures var t := Next(s, a);
            && (t.inodes != s.inodes || t.temp != s.temp || t.live != s.live ==>
                  !IsReaderAction(a) && s.lock == Some(a.p))
            && (t.live != s.live ==> a.Rename? && a.ok && t.history == s.history + [a.p])
            && (t.history != s.history ==> t.history == s.history + [a.p] && !IsReaderAction(a))
  {
    hide CopyGoes, SetHash, Named, Rewrite, Version;
    if !IsReaderAction(a) && a.p < |s.pcs| {
      assert WriterOk(s, a.p);
    }
  }

  /** At most one process is between taking the lock and giving it back. */
  lemma MutualExclusion(s: State, initial: string, p: nat, q: nat)
    requires Inv(s, initial) && p < |s.pcs| && q < |s.pcs|
    requires !(s.pcs[p].Idle? || s.pcs[p].Locking? || s.pcs[p].Returned? || s.pcs[p].Dead?)
    requires !(s.pcs[q].Idle? || s.pcs[q].Locking? || s.pcs[q].Returned? || s.pcs[q].Dead?)
    ensures p == q
  {
    assert WriterOk(s, p) && WriterOk(s, q);
  }
}
