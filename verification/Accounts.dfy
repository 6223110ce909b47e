/** The passwd file: `account_lookup`, adduser's `valid_username`, `next_uid` and `append_line`. */
module Accounts {
  import opened Text
  import opened Fields
  import opened Shadow
  import opened Groups

  const PATH_MAX: nat := 128

  datatype Account = Account(name: string, passwd: string, uid: nat, gid: nat, home: string, shell: string)

  function OrDefault(o: Option<string>, default: string): string {
    if o == None || o == Some("") then default else o.value
  }

  /** `account_from_line` */
  function ParseAccount(line: string): Option<Account> {
    match (Field(line, 0, NAME_MAX), Field(line, 1, HASH_MAX), Field(line, 2, ID_MAX), Field(line, 3, ID_MAX))
    case (Some(name), Some(passwd), Some(uid), Some(gid)) =>
      Some(Account(name, passwd, ToId(uid), ToId(gid),
                   OrDefault(Field(line, 5, PATH_MAX), "/"), OrDefault(Field(line, 6, PATH_MAX), "/bin/sh")))
    case _ => None
  }

  /** The lines an account search passes over. */
  predicate Comment(line: string) {
    line != "" && (line[0] == '#' || line[0] == '\n')
  }

  predicate Wanted(a: Account, user: Option<string>, uid: Option<nat>) {
    (user.Some? ==> a.name == user.value) && (uid.Some? ==> a.uid == uid.value)
  }

  /** What one line answers to a search. */
  function Match(line: string, user: Option<string>, uid: Option<nat>): Option<Account> {
    if Comment(line) then None
    else
      match ParseAccount(line)
      case None => None
      case Some(a) => if Wanted(a, user, uid) then Some(a) else None
  }

  /** The first account that fits. */
  function FindIn(ls: seq<string>, user: Option<string>, uid: Option<nat>): Option<Account> {
    if ls == [] then None
    else match Match(ls[0], user, uid)
         case Some(a) => Some(a)
         case None => FindIn(ls[1..], user, uid)
  }

  /** The line is no comment, parses to this account, and is one that is looked for. */
  predicate Hits(line: string, user: Option<string>, uid: Option<nat>, a: Account) {
    && line != "" && line[0] != '#' && line[0] != '\n' && ParseAccount(line) == Some(a)
    && (user == None || user == Some(a.name)) && (uid == None || uid == Some(a.uid))
  }

  /** A search gives the account of the first line that hits, and none only when no line does. */
  lemma {:induction false} FirstHit(ls: seq<string>, user: Option<string>, uid: Option<nat>)
    requires forall i :: 0 <= i < |ls| ==> ls[i] != ""
    ensures FindIn(ls, user, uid) == None <==> forall i, a :: 0 <= i < |ls| ==> !Hits(ls[i], user, uid, a)
    ensures forall a :: FindIn(ls, user, uid) == Some(a) ==>
              exists i :: 0 <= i < |ls| && Hits(ls[i], user, uid, a) &&
                          forall j, b :: 0 <= j < i ==> !Hits(ls[j], user, uid, b)
  {
    hide ParseAccount;
    if ls != [] {
      var rest := ls[1..];
      assert forall i :: 0 <= i < |rest| ==> rest[i] == ls[i + 1];
      FirstHit(rest, user, uid);
      match Match(ls[0], user, uid)
      case Some(a) =>
        assert Hits(ls[0], user, uid, a);
      case None =>
        assert forall a :: !Hits(ls[0], user, uid, a);
        hide Match, Hits;
        assert forall i :: 1 <= i < |ls| ==> ls[i] == rest[i - 1];
        if FindIn(rest, user, uid).Some? {
          var a := FindIn(rest, user, uid).value;
          var i :| 0 <= i < |rest| && Hits(rest[i], user, uid, a) &&
                   forall j, b :: 0 <= j < i ==> !Hits(rest[j], user, uid, b);
          assert Hits(ls[i + 1], user, uid, a);
        }
    }
  }

  function ByName(file: string, user: string): Option<Account> {
    if user == "" then None else FindIn(Chunks(file), Some(user), None)
  }

  function ByUid(file: string, uid: nat): Option<Account> {
    FindIn(Chunks(file), None, Some(uid))
  }

  /**
    The fields of a passwd line; a home or a shell that is empty, or not there at all, is `/` and `/bin/sh`. `more` is
    what follows the group id: comment, home and shell, or fewer.
   */
  lemma LineParses(name: string, passwd: string, uid: nat, gid: nat, more: seq<string>)
    requires Safe(name) && Safe(passwd) && AllSafe(more) && |name| < NAME_MAX && |passwd| < HASH_MAX
    requires uid < TWO32 && gid < TWO32 && |more| <= 3 && forall i :: 0 <= i < |more| ==> |more[i]| < PATH_MAX
    ensures ParseAccount(Join([name, passwd, ShowNat(uid), ShowNat(gid)] + more) + "\n") ==
            Some(Account(name, passwd, uid, gid,
                         if |more| > 1 && more[1] != "" then more[1] else "/",
                         if |more| > 2 && more[2] != "" then more[2] else "/bin/sh"))
  {
    LineFields(name, passwd, uid, gid, more);
    IdRoundTrip(uid);
    IdRoundTrip(gid);
    hide Join, Field, ToId, ShowNat, AllSafe, Safe, ParseAccount;
    ParsesTo(Join([name, passwd, ShowNat(uid), ShowNat(gid)] + more) + "\n", name, passwd, ShowNat(uid), ShowNat(gid),
             if |more| > 1 then Some(more[1]) else None, if |more| > 2 then Some(more[2]) else None);
  }

  lemma ParsesTo(line: string, name: string, passwd: string, uid: string, gid: string,
                 home: Option<string>, shell: Option<string>)
    requires Field(line, 0, NAME_MAX) == Some(name) && Field(line, 1, HASH_MAX) == Some(passwd)
    requires Field(line, 2, ID_MAX) == Some(uid) && Field(line, 3, ID_MAX) == Some(gid)
    requires Field(line, 5, PATH_MAX) == home && Field(line, 6, PATH_MAX) == shell
    ensures ParseAccount(line) ==
            Some(Account(name, passwd, ToId(uid), ToId(gid),
                         if home.Some? && home.value != "" then home.value else "/",
                         if shell.Some? && shell.value != "" then shell.value else "/bin/sh"))
  {
    hide Field, ToId;
  }

  lemma LineFields(name: string, passwd: string, uid: nat, gid: nat, more: seq<string>)
    requires Safe(name) && Safe(passwd) && AllSafe(more) && |name| < NAME_MAX && |passwd| < HASH_MAX
    requires uid < TWO32 && gid < TWO32 && |more| <= 3 && forall i :: 0 <= i < |more| ==> |more[i]| < PATH_MAX
    ensures var l := Join([name, passwd, ShowNat(uid), ShowNat(gid)] + more) + "\n";
            && Field(l, 0, NAME_MAX) == Some(name) && Field(l, 1, HASH_MAX) == Some(passwd)
            && Field(l, 2, ID_MAX) == Some(ShowNat(uid)) && Field(l, 3, ID_MAX) == Some(ShowNat(gid))
            && Field(l, 5, PATH_MAX) == (if |more| > 1 then Some(more[1]) else None)
            && Field(l, 6, PATH_MAX) == (if |more| > 2 then Some(more[2]) else None)
  {
    var fs := [name, passwd, ShowNat(uid), ShowNat(gid)] + more;
    ShowNatDigits(uid);
    ShowNatDigits(gid);
    IdLen(uid);
    IdLen(gid);
    assert AllSafe(fs);
    hide Join, Field, ShowNat, AllSafe, Safe, AllDigits;
    ReadWhole(fs, 0, NAME_MAX);
    ReadWhole(fs, 1, HASH_MAX);
    ReadWhole(fs, 2, ID_MAX);
    ReadWhole(fs, 3, ID_MAX);
    ReadMaybe(fs, 5, PATH_MAX);
    ReadMaybe(fs, 6, PATH_MAX);
  }

  /** `account_from_line` on buffers of the record's sizes. */
  method AccountFromLine(line: string) returns (a: Option<Account>)
    requires '\0' !in line
    ensures a == ParseAccount(line)
  {
    var name := ReadField(line, 0, NAME_MAX);
    var passwd := ReadField(line, 1, HASH_MAX);
    var uid := ReadField(line, 2, ID_MAX);
    var gid := ReadField(line, 3, ID_MAX);
    if name.None? || passwd.None? || uid.None? || gid.None? {
      return None;
    }
    var home := ReadField(line, 5, PATH_MAX);
    var shell := ReadField(line, 6, PATH_MAX);
    a := Some(Account(name.value, passwd.value, ToId(uid.value), ToId(gid.value),
                      OrDefault(home, "/"), OrDefault(shell, "/bin/sh")));
  }

  /** `account_lookup`; a missing file has no accounts. */
  method AccountLookup(file: Option<string>, user: Option<string>, uid: Option<nat>) returns (a: Option<Account>)
    requires file.Some? ==> '\0' !in file.value
    ensures a == FindIn(Chunks(Get(file, "")), user, uid)
  {
    hide ParseAccount, FirstChunk, AfterChunk;
    if file.None? {
      return None;
    }
    var unread := file.value;
    while unread != ""
      invariant '\0' !in unread
      invariant FindIn(Chunks(unread), user, uid) == FindIn(Chunks(file.value), user, uid)
      decreases |unread|
    {
      var line := FirstChunk(unread);
      NulFreeStep(unread);
      assert Chunks(unread)[1..] == Chunks(AfterChunk(unread));
      unread := AfterChunk(unread);
      if Comment(line) {
        continue;
      }
      var cand := AccountFromLine(line);
      if cand.None? || !Wanted(cand.value, user, uid) {
        continue;
      }
      return cand;
    }
    return None;
  }

  // ---- adduser ----

  predicate NameChar(c: char) {
    'a' <= c <= 'z' || IsDigit(c) || c == '_' || c == '-'
  }

  predicate Reserved(user: string) {
    user == "root" || user == "bin" || user == "daemon" || user == "nobody"
  }

  predicate ValidUsername(user: string) {
    && 2 <= |user| < NAME_MAX && ('a' <= user[0] <= 'z' || user[0] == '_')
    && (forall c :: c in user ==> NameChar(c)) && !Reserved(user)
  }

  method CheckUsername(user: string) returns (ok: bool)
    ensures ok <==> ValidUsername(user)
    ensures ok <==> && 2 <= |user| <= 63 && ('a' <= user[0] <= 'z' || user[0] == '_')
                    && (forall c :: c in user ==> 'a' <= c <= 'z' || '0' <= c <= '9' || c == '_' || c == '-')
                    && user !in ["root", "bin", "daemon", "nobody"]
  {
    var n := |user|;
    if n < 2 || n >= NAME_MAX {
      return false;
    }
    if !('a' <= user[0] <= 'z') && user[0] != '_' {
      return false;
    }
    var i := 0;
    while i < n
      invariant 0 <= i <= n
      invariant forall k :: 0 <= k < i ==> NameChar(user[k])
    {
      if !NameChar(user[i]) {
        assert user[i] in user;
        return false;
      }
      i := i + 1;
    }
    return !Reserved(user);
  }

  /** The uid a line holds for `next_uid`, which reads comments like any other line. */
  function LineUid(line: string): (r: Option<nat>)
    ensures r.Some? ==> r.value < TWO32
  {
    match Field(line, 2, ID_MAX)
    case None => None
    case Some(s) => Some(ToId(s))
  }

  /** `next_uid` from a candidate on; the 32-bit increment wraps. */
  function NextUidIn(ls: seq<string>, next: nat): nat
    requires next < TWO32
  {
    if ls == [] then next
    else
      match LineUid(ls[0])
      case None => NextUidIn(ls[1..], next)
      case Some(u) => NextUidIn(ls[1..], if u >= next then (u + 1) % TWO32 else next)
  }

  function NextUidOf(file: string): nat {
    NextUidIn(Chunks(file), 1000)
  }

  method NextUid(file: Option<string>) returns (next: nat)
    requires file.Some? ==> '\0' !in file.value
    ensures next == NextUidOf(Get(file, ""))
  {
    hide Field, FirstChunk, AfterChunk;
    next := 1000;
    if file.None? {
      return;
    }
    var unread := file.value;
    while unread != ""
      invariant '\0' !in unread && next < TWO32
      invariant NextUidIn(Chunks(unread), next) == NextUidOf(file.value)
      decreases |unread|
    {
      var line := FirstChunk(unread);
      NulFreeStep(unread);
      assert Chunks(unread)[1..] == Chunks(AfterChunk(unread));
      unread := AfterChunk(unread);
      var s := ReadField(line, 2, ID_MAX);
      if s.None? {
        continue;
      }
      var u := ToId(s.value);
      if u >= next {
        next := (u + 1) % TWO32;
      }
    }
  }

  /** No line holds the largest 32-bit uid. */
  predicate UidRoom(ls: seq<string>) {
    ls == [] || (LineUid(ls[0]) != Some(TWO32 - 1) && UidRoom(ls[1..]))
  }

  predicate UidAbove(ls: seq<string>, uid: nat) {
    ls == [] || ((LineUid(ls[0]).Some? ==> LineUid(ls[0]).value < uid) && UidAbove(ls[1..], uid))
  }

  lemma {:induction false} NextUidIsAbove(ls: seq<string>, next: nat)
    requires next < TWO32 && UidRoom(ls)
    ensures NextUidIn(ls, next) >= next && UidAbove(ls, NextUidIn(ls, next))
  {
    hide LineUid;
    if ls != [] {
      NextUidIsAbove(ls[1..], match LineUid(ls[0]) case None => next case Some(u) => if u >= next then u + 1 else next);
    }
  }

  lemma {:induction false} NoRoomNotAbove(ls: seq<string>, uid: nat)
    requires !UidRoom(ls) && uid < TWO32
    ensures !UidAbove(ls, uid)
  {
    hide LineUid;
    if LineUid(ls[0]) != Some(TWO32 - 1) {
      NoRoomNotAbove(ls[1..], uid);
    }
  }

  lemma {:induction false} NextUidFits(ls: seq<string>, next: nat)
    requires next < TWO32
    ensures NextUidIn(ls, next) < TWO32
  {
    hide LineUid;
    if ls != [] {
      NextUidFits(ls[1..], match LineUid(ls[0])
                           case None => next
                           case Some(u) => if u >= next then (u + 1) % TWO32 else next);
    }
  }

  /** The next uid is at least 1000 and above every uid of the file exactly when no line holds 4294967295. */
  lemma NextUidFresh(file: string)
    ensures NextUidOf(file) >= 1000 && UidAbove(Chunks(file), NextUidOf(file)) <==> UidRoom(Chunks(file))
  {
    NextUidFits(Chunks(file), 1000);
    if UidRoom(Chunks(file)) {
      NextUidIsAbove(Chunks(file), 1000);
    } else {
      NoRoomNotAbove(Chunks(file), NextUidOf(file));
    }
  }

  /** What `append_line` is told by `open` and by each `write`. */
  datatype AppendIo = AppendIo(open: bool, write: nat -> int)

  /** How much of a line the writes get out before one fails. */
  function Written(line: string, write: nat -> int, calls: nat): (w: string)
    ensures w <= line
    decreases |line|
  {
    if line == "" || write(calls) <= 0 then ""
    else
      var n := if write(calls) <= |line| then write(calls) else |line|;
      line[..n] + Written(line[n..], write, calls + 1)
  }

  predicate AppendRuns(line: string, io: AppendIo) {
    io.open && Written(line, io.write, 0) == line
  }

  /** `append_line`: success exactly when the whole line was written; a failure leaves what was. */
  method AppendLine(content: string, line: string, io: AppendIo) returns (rc: int, after: string)
    ensures rc == if AppendRuns(line, io) then 0 else -1
    ensures after == content + if io.open then Written(line, io.write, 0) else ""
  {
    hide Written;
    WriteEnds(line, io.write, 0);
    after := content;
    if !io.open {
      return -1, after;
    }
    var p, calls := line, 0;
    ghost var wrote := "";
    while p != ""
      invariant after == content + wrote && |wrote| + |p| == |line|
      invariant wrote + Written(p, io.write, calls) == Written(line, io.write, 0)
      decreases |p|
    {
      var w := io.write(calls);
      WriteEnds(p, io.write, calls);
      if w <= 0 {
        assert wrote + "" == wrote;
        return -1, after;
      }
      var n := if w <= |p| then w else |p|;
      WriteStep(wrote, p, io.write, calls, n);
      assert after + p[..n] == content + (wrote + p[..n]);
      after, wrote := after + p[..n], wrote + p[..n];
      p, calls := p[n..], calls + 1;
    }
    WriteEnds("", io.write, calls);
    assert wrote + "" == wrote;
    return 0, after;
  }

  lemma WriteEnds(p: string, write: nat -> int, calls: nat)
    ensures p == "" || write(calls) <= 0 ==> Written(p, write, calls) == ""
    ensures |Written(p, write, calls)| == |p| ==> Written(p, write, calls) == p
  {
  }

  lemma WriteStep(wrote: string, p: string, write: nat -> int, calls: nat, n: nat)
    requires p != "" && write(calls) > 0 && n == if write(calls) <= |p| then write(calls) else |p|
    ensures wrote + Written(p, write, calls) == (wrote + p[..n]) + Written(p[n..], write, calls + 1)
  {
    assert p == p[..n] + p[n..];
  }

  /** What the first `k` writes say they wrote. */
  function Sum(write: nat -> int, from: nat, k: nat): int
    decreases k
  {
    if k == 0 then 0 else write(from) + Sum(write, from + 1, k - 1)
  }

  /** Writes that get something out, and then one that does not: what is out is the beginning of the line, and no more. */
  lemma {:induction false} WrittenStops(line: string, write: nat -> int, from: nat, k: nat)
    requires (forall j: nat :: from <= j < from + k ==> write(j) > 0) && write(from + k) <= 0
    ensures Sum(write, from, k) >= 0
    ensures Written(line, write, from) == if Sum(write, from, k) < |line| then line[..Sum(write, from, k)] else line
    decreases k
  {
    if k > 0 {
      var n := if write(from) <= |line| then write(from) else |line|;
      WrittenStops(line[n..], write, from + 1, k - 1);
      if line != "" {
        WriteStep("", line, write, from, n);
        hide Written;
        CutBehind(line, n, write(from), Sum(write, from + 1, k - 1));
        assert "" + Written(line, write, from) == Written(line, write, from) && "" + line[..n] == line[..n];
      }
    }
  }

  /** Cutting the rest behind the first `n` bytes, or not at all. */
  lemma CutBehind(line: string, n: nat, wrote: int, more: int)
    requires wrote > 0 && more >= 0 && n == if wrote <= |line| then wrote else |line|
    ensures line[..n] + (if more < |line[n..]| then line[n..][..more] else line[n..]) ==
            if wrote + more < |line| then line[..wrote + more] else line
  {
    assert line == line[..n] + line[n..];
  }

  /** Writes that never fail get the whole line out. */
  lemma {:induction false} WritesAll(line: string, write: nat -> int, calls: nat)
    requires forall k: nat :: write(k) > 0
    ensures Written(line, write, calls) == line
    decreases |line|
  {
    if line != "" {
      var n := if write(calls) <= |line| then write(calls) else |line|;
      WritesAll(line[n..], write, calls + 1);
      assert line[..n] + line[n..] == line;
    }
  }

  /** `snprintf(buf, size, ...)`: what does not fit is cut. */
  function Snprintf(text: string, size: nat): string
    requires size > 0
  {
    if |text| < size then text else text[..size - 1]
  }
}
