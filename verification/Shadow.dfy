/**
  The shadow file: `ir0_shadow_hash` and `ir0_shadow_set_hash`, on the bytes of
  the file, and what an update keeps.
 */
module Shadow {
  import opened Text
  import opened Fields

  const NAME_MAX: nat := 64
  const HASH_MAX: nat := 192

  /** The aging fields given to a line that has none. */
  const AGING := "0:0:99999:7:::"

  predicate Named(line: string, user: string) {
    Field(line, 0, NAME_MAX) == Some(user)
  }

  predicate Listed(ls: seq<string>, user: string) {
    ls != [] && (Named(ls[0], user) || Listed(ls[1..], user))
  }

  lemma {:induction false} ListedConcat(a: seq<string>, b: seq<string>, user: string)
    ensures Listed(a + b, user) <==> Listed(a, user) || Listed(b, user)
  {
    if a == [] {
      assert a + b == b;
    } else {
      assert (a + b)[1..] == a[1..] + b;
      ListedConcat(a[1..], b, user);
    }
  }

  /** The first line named `user` decides; a line without a second field is an error. */
  function LookupIn(ls: seq<string>, user: string, hashlen: nat): Option<string>
    requires hashlen > 0
  {
    if ls == [] then None
    else if Named(ls[0], user) then Field(ls[0], 1, hashlen)
    else LookupIn(ls[1..], user, hashlen)
  }

  function Lookup(file: string, user: string, hashlen: nat): Option<string>
    requires hashlen > 0
  {
    LookupIn(Chunks(file), user, hashlen)
  }

  function StripEol(s: string): (t: string)
    ensures t <= s
    ensures t == "" || !(t[|t| - 1] == '\n' || t[|t| - 1] == '\r')
  {
    if s != "" && (s[|s| - 1] == '\n' || s[|s| - 1] == '\r') then StripEol(s[..|s| - 1]) else s
  }

  /** What a rewritten line keeps after its hash. */
  function Aging(line: string): string {
    match AfterColons(line, 2)
    case None => AGING
    case Some(rest) => if rest == "" then AGING else StripEol(rest)
  }

  function Entry(user: string, hash: string, aging: string): string {
    user + ":" + hash + ":" + aging + "\n"
  }

  function Rewrite(line: string, user: string, hash: string): string {
    if Named(line, user) then Entry(user, hash, Aging(line)) else line
  }

  function RewriteAll(ls: seq<string>, user: string, hash: string): seq<string> {
    if ls == [] then [] else [Rewrite(ls[0], user, hash)] + RewriteAll(ls[1..], user, hash)
  }

  function Appended(ls: seq<string>, user: string, hash: string): seq<string> {
    if Listed(ls, user) then [] else [Entry(user, hash, AGING)]
  }

  /** The lines an update writes for the lines it reads. */
  function SetLines(ls: seq<string>, user: string, hash: string): seq<string> {
    RewriteAll(ls, user, hash) + Appended(ls, user, hash)
  }

  /** The file an update leaves. */
  function SetHash(file: string, user: string, hash: string): string {
    Flatten(SetLines(Chunks(file), user, hash))
  }

  // ---- The routines ----

  /** What the environment answers during one update. */
  datatype SetHashIo = SetHashIo(openLock: bool, flock: nat -> bool, openTemp: bool,
                                 put: nat -> bool, fflush: bool, rename: bool)

  const LOCK_TRIES: nat := 20

  ghost predicate LockGranted(io: SetHashIo) {
    io.openLock && exists k: nat :: k < LOCK_TRIES && io.flock(k)
  }

  method LockAccounts(io: SetHashIo) returns (locked: bool)
    ensures locked <==> LockGranted(io)
  {
    if !io.openLock {
      return false;
    }
    var tries := 0;
    while tries < LOCK_TRIES
      invariant forall k: nat :: k < tries ==> !io.flock(k)
    {
      if io.flock(tries) {
        return true;
      }
      tries := tries + 1;
    }
    return false;
  }

  lemma NulFreeStep(s: string)
    requires s != "" && '\0' !in s
    ensures '\0' !in FirstChunk(s) && '\0' !in AfterChunk(s)
  {
  }

  /** The scan for the second colon and the two trimming steps after it. */
  method CopyAging(line: string) returns (tail: string)
    ensures tail == Aging(line)
  {
    var i, field := 0, 0;
    var rest := "";
    assert line[0..] == line;
    while i < |line|
      invariant 0 <= i <= |line| && 0 <= field < 2 && rest == ""
      invariant AfterColons(line, 2) == AfterColons(line[i..], 2 - field)
    {
      AfterColonsStep(line, i, 2 - field);
      if line[i] == ':' {
        field := field + 1;
        if field == 2 {
          rest := line[i + 1..];
          break;
        }
      }
      i := i + 1;
    }
    tail := AGING;
    if rest != "" {
      while rest != "" && (rest[|rest| - 1] == '\n' || rest[|rest| - 1] == '\r')
        invariant StripEol(rest) == Aging(line)
        decreases |rest|
      {
        rest := rest[..|rest| - 1];
      }
      tail := rest;
    }
  }

  class ShadowFiles {
    var shadow: Option<string>
    var temp: Option<string>

    constructor (shadow: Option<string>)
      ensures this.shadow == shadow && temp == None
    {
      this.shadow := shadow;
      temp := None;
    }

    predicate NulFree()
      reads this
    {
      shadow.Some? ==> '\0' !in shadow.value
    }

    /** `ir0_shadow_hash` into the caller's buffer. */
    method ShadowHash(user: string, hash: array<char>) returns (rc: int)
      requires NulFree()
      modifies hash
      ensures rc == 0 || rc == -1
      ensures hash.Length > 0 && shadow.Some? ==>
                match Lookup(shadow.value, user, hash.Length)
                case None => rc == -1
                case Some(h) => rc == 0 && CString(hash[..]) == h
      ensures hash.Length == 0 || shadow.None? ==> rc == -1
    {
      if hash.Length == 0 {
        return -1;
      }
      hash[0] := '\0';
      if shadow.None? {
        return -1;
      }
      var unread := shadow.value;
      while unread != ""
        invariant '\0' !in unread
        invariant Lookup(shadow.value, user, hash.Length) == Lookup(unread, user, hash.Length)
        decreases |unread|
      {
        var line := FirstChunk(unread);
        NulFreeStep(unread);
        unread := AfterChunk(unread);
        var same := IsNamed(line, user);
        if !same {
          continue;
        }
        rc := AuthField(line, 1, hash);
        return;
      }
      return -1;
    }

    ghost predicate AllWell(user: string, io: SetHashIo)
      reads this
    {
      UpdateRuns(shadow, user, io)
    }

    /**
      `ir0_shadow_set_hash`. It succeeds exactly when every call it makes does; the
      live file is then the updated one, and otherwise it is untouched.
     */
    method ShadowSetHash(user: string, hash: string, io: SetHashIo) returns (rc: int)
      requires NulFree()
      modifies this
      ensures rc == if old(AllWell(user, io)) then 0 else -1
      ensures rc == 0 ==> shadow == Some(SetHash(old(shadow).value, user, hash)) && temp == None
      ensures rc == -1 ==> shadow == old(shadow) && (temp == None || temp == old(temp))
    {
      if user == "" {
        return -1;
      }
      var locked := LockAccounts(io);
      if !locked || shadow.None? || !io.openTemp {
        return -1;
      }
      temp := Some("");
      var ok, dst := CopyUpdated(shadow.value, user, hash, io);
      if !ok || !io.fflush {
        temp := None;
        return -1;
      }
      temp := Some(dst);
      if !io.rename {
        temp := None;
        return -1;
      }
      shadow, temp := temp, None;
      return 0;
    }
  }

  /** Every call of one update succeeds. */
  ghost predicate UpdateRuns(file: Option<string>, user: string, io: SetHashIo) {
    && user != "" && LockGranted(io) && file.Some? && io.openTemp && io.fflush && io.rename
    && AllPut(Prints(file.value, user), io)
  }

  /** Output operations of one update: one for each line read, one for an appended entry. */
  ghost function Prints(file: string, user: string): nat {
    |SetLines(Chunks(file), user, "")|
  }

  ghost predicate AllPut(n: nat, io: SetHashIo) {
    forall k: nat :: k < n ==> io.put(k)
  }

  /** The name test of one line, in a name buffer of its own. */
  method IsNamed(line: string, user: string) returns (same: bool)
    requires '\0' !in line
    ensures same <==> Named(line, user)
  {
    var name := new char[NAME_MAX];
    var f := AuthField(line, 0, name);
    same := f == 0 && CString(name[..]) == user;
  }

  /** What the loop prints for one line. */
  method UpdatedLine(line: string, user: string, hash: string) returns (same: bool, text: string)
    requires '\0' !in line
    ensures same <==> Named(line, user)
    ensures text == Rewrite(line, user, hash)
  {
    same := IsNamed(line, user);
    if !same {
      return same, line;
    }
    var tail := CopyAging(line);
    text := Entry(user, hash, tail);
  }

  /** The copying loop and the appended entry. */
  method CopyUpdated(file: string, user: string, hash: string, io: SetHashIo) returns (ok: bool, dst: string)
    requires '\0' !in file
    ensures ok <==> AllPut(Prints(file, user), io)
    ensures ok ==> dst == SetHash(file, user, hash)
  {
    hide Named, Rewrite, Entry, SetHash, Copied, Chunks, FirstChunk, AfterChunk, Listed, Prints;
    CopiedAll(file, user, hash);
    var unread, found, printed := file, false, 0;
    dst := "";
    while unread != ""
      invariant '\0' !in unread
      invariant dst + Copied(unread, user, hash) == Copied(file, user, hash)
      invariant printed + |Chunks(unread)| == |Chunks(file)|
      invariant found || Listed(Chunks(unread), user) <==> Listed(Chunks(file), user)
      invariant AllPut(printed, io)
      decreases |unread|
    {
      var line := FirstChunk(unread);
      NulFreeStep(unread);
      CopyStep(unread, user, hash);
      unread := AfterChunk(unread);
      if !io.put(printed) {
        return false, dst;
      }
      var same, text := UpdatedLine(line, user, hash);
      dst, found, printed := dst + text, found || same, printed + 1;
    }
    if !found {
      if !io.put(printed) {
        return false, dst;
      }
      dst := dst + Entry(user, hash, AGING);
    }
    ok := true;
  }

  /** What the copying loop writes for the unread part of the file. */
  function Copied(unread: string, user: string, hash: string): string {
    Flatten(RewriteAll(Chunks(unread), user, hash))
  }

  lemma CopyStep(unread: string, user: string, hash: string)
    requires unread != ""
    ensures Copied(unread, user, hash) ==
            Rewrite(FirstChunk(unread), user, hash) + Copied(AfterChunk(unread), user, hash)
    ensures Listed(Chunks(unread), user) <==>
            Named(FirstChunk(unread), user) || Listed(Chunks(AfterChunk(unread)), user)
    ensures |Chunks(unread)| == 1 + |Chunks(AfterChunk(unread))|
  {
    var ls := Chunks(unread);
    assert ls[1..] == Chunks(AfterChunk(unread)) && ls[0] == FirstChunk(unread);
    assert RewriteAll(ls, user, hash)[1..] == RewriteAll(ls[1..], user, hash);
  }

  lemma {:induction false} RewriteAllLength(ls: seq<string>, user: string, hash: string)
    ensures |RewriteAll(ls, user, hash)| == |ls|
  {
    if ls != [] {
      RewriteAllLength(ls[1..], user, hash);
    }
  }

  lemma CopiedAll(file: string, user: string, hash: string)
    ensures Copied("", user, hash) == "" && Chunks("") == [] && !Listed([], user)
    ensures SetHash(file, user, hash) ==
            Copied(file, user, hash) + if Listed(Chunks(file), user) then "" else Entry(user, hash, AGING)
    ensures Prints(file, user) == |Chunks(file)| + if Listed(Chunks(file), user) then 0 else 1
  {
    var ls := Chunks(file);
    FlattenConcat(RewriteAll(ls, user, hash), Appended(ls, user, hash));
    FlattenOne(Entry(user, hash, AGING));
    RewriteAllLength(ls, user, "");
  }
}
