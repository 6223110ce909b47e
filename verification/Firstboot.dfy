/**
  First boot: the account files in the order they are written, the done markers
  after them, and what a crash between any two disk operations leaves.
 */
module Firstboot {
  import opened Text
  import opened Fields
  import opened Shadow
  import opened Groups
  import opened GroupUpdate
  import opened Accounts
  import opened AccountDb
  import opened Adduser

  /**
    The files firstboot touches: /etc/passwd, /etc/shadow, /etc/group, /etc/hostname,
    /etc/ir0-noroot, /etc/recovery, /etc/ir0-autologin, then the markers
    /etc/firstboot.done, /var/lib/ir0/firstboot.done and the three older ones
    /var/lib/ir0/fb.done, /etc/fb.done, /etc/ir0-firstboot-done.
   */
  datatype Path =
    | PASSWD | SHADOW | GROUP | HOSTNAME | ROOT_DENY | RECOVERY | AUTOLOGIN
    | DONE_ETC | DONE_VAR | SHORT_VAR | SHORT_ETC | LONG_ETC

  /** The contents of those files; None where there is no file. */
  datatype Disk = Disk(passwd: Option<string>, shadow: Option<string>, group: Option<string>, hostname: Option<string>,
                       rootDeny: Option<string>, recovery: Option<string>, autologin: Option<string>,
                       doneEtc: Option<string>, doneVar: Option<string>,
                       shortVar: Option<string>, shortEtc: Option<string>, longEtc: Option<string>)
  {
    function Put(p: Path, content: Option<string>): Disk {
      match p
      case PASSWD => this.(passwd := content)
      case SHADOW => this.(shadow := content)
      case GROUP => this.(group := content)
      case HOSTNAME => this.(hostname := content)
      case ROOT_DENY => this.(rootDeny := content)
      case RECOVERY => this.(recovery := content)
      case AUTOLOGIN => this.(autologin := content)
      case DONE_ETC => this.(doneEtc := content)
      case DONE_VAR => this.(doneVar := content)
      case SHORT_VAR => this.(shortVar := content)
      case SHORT_ETC => this.(shortEtc := content)
      case LONG_ETC => this.(longEtc := content)
    }

    function At(p: Path): Option<string> {
      match p
      case PASSWD => passwd
      case SHADOW => shadow
      case GROUP => group
      case HOSTNAME => hostname
      case ROOT_DENY => rootDeny
      case RECOVERY => recovery
      case AUTOLOGIN => autologin
      case DONE_ETC => doneEtc
      case DONE_VAR => doneVar
      case SHORT_VAR => shortVar
      case SHORT_ETC => shortEtc
      case LONG_ETC => longEtc
    }
  }

  /** firstboot's `already_done` */
  predicate AlreadyDone(d: Disk) {
    d.doneVar.Some? || d.doneEtc.Some? || d.shortVar.Some? || d.shortEtc.Some? || d.longEtc.Some?
  }

  /** The console's `firstboot_pending` */
  predicate FirstbootPending(d: Disk) {
    if d.doneVar.Some? || d.doneEtc.Some? then false
    else if d.shortVar.Some? || d.shortEtc.Some? || d.longEtc.Some? then false
    else true
  }

  // ---- The texts ----

  function PasswdFile(user: string): string {
    Snprintf("root:x:0:0:root:/root:/bin/sh\n" +
             (user + ":x:1000:100:" + user + ":/home/" + user + ":/bin/sh\n"), 256)
  }

  function ShadowFile(user: string, hash: string, lockRoot: bool): string {
    Snprintf("root:" + (if lockRoot then "!" else hash) + ":0:0:99999:7:::\n" +
             (user + ":" + hash + ":0:0:99999:7:::\n"), 512)
  }

  function GroupFileText(user: string, wheel: bool): string {
    Snprintf(if wheel then "root:x:0:\n" + ("wheel:x:10:" + user + "\n") + ("users:x:100:" + user + "\n")
             else "root:x:0:\n" + ("users:x:100:" + user + "\n"), 192)
  }

  function HostFile(host: string): string {
    Snprintf(host + "\n", 80)
  }

  datatype Setup = Setup(user: string, host: string, hash: string, wheel: bool, lockRoot: bool, recovery: bool)

  /** All four account files hold what the setup asks for. */
  predicate Complete(d: Disk, s: Setup) {
    && d.passwd == Some(PasswdFile(s.user)) && d.shadow == Some(ShadowFile(s.user, s.hash, s.lockRoot))
    && d.group == Some(GroupFileText(s.user, s.wheel)) && d.hostname == Some(HostFile(s.host))
  }

  /** No file but `path` differs. */
  predicate OnlyChanges(before: Disk, after: Disk, path: Path) {
    after == before.Put(path, after.At(path))
  }

  // ---- The routines ----

  /** What `open` and the `write` calls answer for each file. */
  datatype BootIo = BootIo(file: Path -> AppendIo)

  /** No open and no write fails. */
  ghost predicate AllFilesWell(io: BootIo) {
    forall p: Path :: io.file(p).open && forall k: nat :: io.file(p).write(k) > 0
  }

  /** What must hold of a disk whenever the machine may stop. */
  predicate SafePoint(d: Disk, s: Setup) {
    AlreadyDone(d) ==> Complete(d, s)
  }

  /** One operation on one file: truncated or created, appended to, or removed. */
  predicate ChangesAt(before: Disk, after: Disk, path: Path) {
    && OnlyChanges(before, after, path)
    && (|| after.At(path) == None || after.At(path) == Some("")
        || (before.At(path).Some? && after.At(path).Some? && before.At(path).value <= after.At(path).value))
  }

  predicate OneChange(before: Disk, after: Disk) {
    exists path :: ChangesAt(before, after, path)
  }

  /** Each state of the disk comes from the one before it by one operation on one file: none is skipped. */
  predicate Linked(trace: seq<Disk>) {
    |trace| <= 1 || (Linked(trace[..|trace| - 1]) && OneChange(trace[|trace| - 2], trace[|trace| - 1]))
  }

  lemma LinkedMore(trace: seq<Disk>, after: Disk, path: Path)
    requires trace != [] && Linked(trace) && ChangesAt(trace[|trace| - 1], after, path)
    ensures Linked(trace + [after])
  {
    hide ChangesAt;
    assert OneChange(trace[|trace| - 1], after);
    hide OneChange;
    assert (trace + [after])[..|trace|] == trace;
  }

  /** The files, with every state that a crash could leave. */
  class System {
    var disk: Disk
    ghost var trace: seq<Disk>

    constructor (disk: Disk)
      ensures this.disk == disk && trace == [disk] && Valid()
    {
      this.disk := disk;
      trace := [disk];
    }

    /** The states so far lead to the present one, operation by operation. */
    ghost predicate Valid()
      reads this
    {
      trace != [] && trace[|trace| - 1] == disk && Linked(trace)
    }

    /** `open` with O_CREAT and O_TRUNC. */
    method Truncate(path: Path)
      requires Valid()
      modifies this
      ensures Valid() && disk == old(disk).Put(path, Some("")) && trace == old(trace) + [disk]
    {
      disk := disk.Put(path, Some(""));
      LinkedMore(trace, disk, path);
      trace := trace + [disk];
    }

    /** `write` at the end of a file. */
    method Append(path: Path, piece: string)
      requires Valid() && disk.At(path).Some?
      modifies this
      ensures Valid() && trace == old(trace) + [disk]
      ensures disk == old(disk).Put(path, Some(old(disk).At(path).value + piece))
    {
      disk := disk.Put(path, Some(disk.At(path).value + piece));
      LinkedMore(trace, disk, path);
      trace := trace + [disk];
    }

    method Unlink(path: Path)
      requires Valid()
      modifies this
      ensures Valid() && disk == old(disk).Put(path, None) && trace == old(trace) + [disk]
    {
      disk := disk.Put(path, None);
      LinkedMore(trace, disk, path);
      trace := trace + [disk];
    }

    /** `write_file`: truncate or create, then write piece by piece. */
    method WriteFile(path: Path, data: string, io: BootIo) returns (rc: int)
      requires Valid()
      modifies this
      ensures Valid() && (rc == 0 || rc == -1)
      ensures old(trace) <= trace && OnlyChanges(old(disk), disk, path)
      ensures forall i :: |old(trace)| <= i < |trace| ==> OnlyChanges(old(disk), trace[i], path)
      ensures rc == 0 ==> disk.At(path) == Some(data)
      ensures rc == -1 ==> disk == old(disk) || (disk.At(path).Some? && disk.At(path).value <= data)
      ensures AllFilesWell(io) ==> rc == 0
    {
      hide System.Valid;
      var f := io.file(path);
      if !f.open {
        return -1;
      }
      Truncate(path);
      var p, calls := 0, 0;
      while p < |data|
        invariant 0 <= p <= |data| && Valid()
        invariant disk == old(disk).Put(path, Some(data[..p]))
        invariant old(trace) <= trace
        invariant forall i :: |old(trace)| <= i < |trace| ==> OnlyChanges(old(disk), trace[i], path)
      {
        var w := f.write(calls);
        if w <= 0 {
          return -1;
        }
        var n := if p + w <= |data| then w else |data| - p;
        assert data[..p] + data[p..p + n] == data[..p + n];
        Append(path, data[p..p + n]);
        p, calls := p + n, calls + 1;
      }
      assert data[..|data|] == data;
      return 0;
    }

    /** `mark_done`: one marker is enough. */
    method MarkDone(io: BootIo) returns (rc: int)
      requires Valid()
      modifies this
      ensures Valid() && (rc == 0 || rc == -1)
      ensures old(trace) <= trace && KeepsAccounts(old(disk), disk)
      ensures forall i :: |old(trace)| <= i < |trace| ==> KeepsAccounts(old(disk), trace[i])
      ensures rc == 0 ==> AlreadyDone(disk)
      ensures AllFilesWell(io) ==> rc == 0
    {
      hide System.Valid;
      var inEtc := WriteFile(DONE_ETC, "ok\n", io);
      var inVar := WriteFile(DONE_VAR, "ok\n", io);
      rc := if inEtc == 0 || inVar == 0 then 0 else -1;
    }

    /** The four account files, in order; no marker appears meanwhile. */
    method WriteFour(s: Setup, io: BootIo) returns (rc: int)
      requires Valid() && !AlreadyDone(disk)
      modifies this
      ensures Valid() && (rc == 0 || rc == -1)
      ensures old(trace) <= trace && !AlreadyDone(disk)
      ensures forall i :: |old(trace)| <= i < |trace| ==> !AlreadyDone(trace[i])
      ensures rc == 0 ==> Complete(disk, s)
      ensures AllFilesWell(io) ==> rc == 0
    {
      hide System.Valid, PasswdFile, ShadowFile, GroupFileText, HostFile;
      rc := WriteFile(PASSWD, PasswdFile(s.user), io);
      if rc != 0 {
        return;
      }
      rc := WriteFile(SHADOW, ShadowFile(s.user, s.hash, s.lockRoot), io);
      if rc != 0 {
        return;
      }
      rc := WriteFile(GROUP, GroupFileText(s.user, s.wheel), io);
      if rc != 0 {
        return;
      }
      rc := WriteFile(HOSTNAME, HostFile(s.host), io);
    }

    /**
      `write_accounts`: at every crash point, a present marker implies the four account
      files are complete; success leaves both.
     */
    method WriteAccounts(s: Setup, io: BootIo) returns (rc: int)
      requires Valid() && !AlreadyDone(disk)
      modifies this
      ensures Valid() && (rc == 0 || rc == -1)
      ensures old(trace) <= trace && SafePoint(disk, s)
      ensures forall i :: |old(trace)| <= i < |trace| ==> SafePoint(trace[i], s)
      ensures rc == 0 ==> AlreadyDone(disk) && disk.autologin == None && (!s.lockRoot ==> disk.rootDeny == None) &&
                          (!s.recovery ==> disk.recovery == None)
      ensures AllFilesWell(io) ==> rc == 0 && (s.lockRoot ==> disk.rootDeny.Some?) && (s.recovery ==> disk.recovery.Some?)
    {
      hide System.Valid, PasswdFile, ShadowFile, GroupFileText, HostFile;
      rc := WriteFour(s, io);
      if rc != 0 {
        return;
      }
      Flag(ROOT_DENY, s.lockRoot, io);
      Flag(RECOVERY, s.recovery, io);
      Unlink(AUTOLOGIN);
      rc := MarkDone(io);
    }

    /** A flag file written or removed, its outcome ignored. */
    method Flag(path: Path, on: bool, io: BootIo)
      requires Valid()
      modifies this
      ensures Valid() && old(trace) <= trace && OnlyChanges(old(disk), disk, path)
      ensures forall i :: |old(trace)| <= i < |trace| ==> OnlyChanges(old(disk), trace[i], path)
      ensures !on ==> disk.At(path) == None
      ensures on && AllFilesWell(io) ==> disk.At(path).Some?
    {
      hide System.Valid;
      if on {
        var rc := WriteFile(path, "1\n", io);
      } else {
        Unlink(path);
      }
    }
  }

  /** Only the two markers written now may differ. */
  predicate KeepsAccounts(before: Disk, after: Disk) {
    after == before.(doneEtc := after.doneEtc, doneVar := after.doneVar)
  }

  // ---- The texts are whole and read back ----

  predicate SetupOk(s: Setup) {
    ValidUsername(s.user) && |s.hash| < HASH_MAX && |s.host| < 64
  }

  lemma RootLineText(hash: string)
    ensures PasswdLine(Row("root", 0, 0, "root", "/root", "/bin/sh", hash)) == "root:x:0:0:root:/root:/bin/sh\n"
  {
    JoinPasswd("root", "0", "0", "/root");
    assert ShowNat(0) == "0";
    assert PasswdParts(Row("root", 0, 0, "root", "/root", "/bin/sh", hash)) ==
           ["root", "x", "0", "0", "root", "/root", "/bin/sh"];
    RootText();
  }

  lemma RootText()
    ensures "root" + ":x:" + "0" + ":" + "0" + ":" + "root" + ":" + "/root" + ":/bin/sh" + "\n" ==
            "root:x:0:0:root:/root:/bin/sh\n"
  {
  }

  lemma UserLineText(user: string, hash: string)
    ensures PasswdLine(NewRow(user, 1000, hash)) == user + ":x:1000:100:" + user + ":/home/" + user + ":/bin/sh\n"
  {
    assert ShowNat(100) == "100" && ShowNat(1000) == "1000" by {
      assert ShowNat(10) == "10";
    }
    assert PasswdParts(NewRow(user, 1000, hash)) == [user, "x", "1000", "100", user, "/home/" + user, "/bin/sh"] by {
      hide ShowNat;
    }
    hide ShowNat, PasswdParts, NewRow, Join;
    JoinPasswd(user, "1000", "100", "/home/" + user);
    UserText(user, "/home/" + user);
  }

  lemma UserText(user: string, home: string)
    ensures user + ":x:" + "1000" + ":" + "100" + ":" + user + ":" + home + ":/bin/sh" + "\n" ==
            user + ":x:1000:100:" + (user + ":" + home + ":/bin/sh\n")
  {
    assert ":x:" + "1000" + ":" + "100" + ":" == ":x:1000:100:";
  }

  lemma RenderTwo(a: Row, b: Row)
    ensures Render([a, b]) == Files(PasswdLine(a) + PasswdLine(b), ShadowLine(a) + ShadowLine(b))
  {
    hide PasswdLine, ShadowLine;
    assert [a, b][1..] == [b] && [b][1..] == [];
    assert PasswdLines([b]) == [PasswdLine(b)] && ShadowLines([b]) == [ShadowLine(b)];
    assert PasswdLines([a, b]) == [PasswdLine(a)] + PasswdLines([b]) == [PasswdLine(a), PasswdLine(b)];
    assert ShadowLines([a, b]) == [ShadowLine(a)] + ShadowLines([b]) == [ShadowLine(a), ShadowLine(b)];
    FlattenTwo(PasswdLine(a), PasswdLine(b));
    FlattenTwo(ShadowLine(a), ShadowLine(b));
  }

  /** No account file is cut short: they are the table of root and the new user. */
  lemma AccountFilesWhole(s: Setup)
    requires SetupOk(s)
    ensures Files(PasswdFile(s.user), ShadowFile(s.user, s.hash, s.lockRoot)) ==
            Render(FirstRows(s.user, s.hash, s.lockRoot))
    ensures HostFile(s.host) == s.host + "\n"
  {
    var rows := FirstRows(s.user, s.hash, s.lockRoot);
    RenderTwo(rows[0], rows[1]);
    hide Render, PasswdFile, ShadowFile, PasswdLine, ShadowLine;
    PasswdWhole(s);
    ShadowWhole(s);
  }

  lemma PasswdWhole(s: Setup)
    requires SetupOk(s)
    ensures var rows := FirstRows(s.user, s.hash, s.lockRoot);
            PasswdFile(s.user) == PasswdLine(rows[0]) + PasswdLine(rows[1])
  {
    var rows := FirstRows(s.user, s.hash, s.lockRoot);
    RootLineText(if s.lockRoot then "!" else s.hash);
    UserLineText(s.user, s.hash);
    assert |PasswdLine(rows[0])| == 30 && |PasswdLine(rows[1])| == 28 + 3 * |s.user|;
    hide PasswdLine;
  }

  lemma ShadowWhole(s: Setup)
    requires SetupOk(s)
    ensures var rows := FirstRows(s.user, s.hash, s.lockRoot);
            ShadowFile(s.user, s.hash, s.lockRoot) == ShadowLine(rows[0]) + ShadowLine(rows[1])
  {
    var rows := FirstRows(s.user, s.hash, s.lockRoot);
    ShadowLineText(rows[0]);
    ShadowLineText(rows[1]);
    hide ShadowLine;
  }

  lemma ShadowLineText(r: Row)
    ensures ShadowLine(r) == r.name + ":" + r.hash + ":0:0:99999:7:::\n"
  {
  }

  /** Both accounts read back by name and by uid, whatever the hash is. */
  lemma AccountsReadBack(s: Setup)
    requires SetupOk(s)
    ensures var f := PasswdFile(s.user);
            var root := Account("root", "x", 0, 0, "/root", "/bin/sh");
            var user := Account(s.user, "x", 1000, 100, "/home/" + s.user, "/bin/sh");
            && ByName(f, "root") == Some(root) && ByUid(f, 0) == Some(root)
            && ByName(f, s.user) == Some(user) && ByUid(f, 1000) == Some(user)
  {
    hide PasswdLine, ShadowLine, ValidUsername, Chunks, RowOk;
    var db := FirstRows(s.user, "", s.lockRoot);
    FirstRowsGood(s.user, "", s.lockRoot);
    AccountFilesWhole(s.(hash := ""));
    RenderedChunks(db);
    assert db[1..][0] == db[1];
    ValidUserText(s.user);
    NotRoot(s.user);
    FindInRendered(db, Some("root"), None);
    FindInRendered(db, None, Some(0));
    FindInRendered(db, Some(s.user), None);
    FindInRendered(db, None, Some(1000));
  }

  lemma NotRoot(user: string)
    requires ValidUsername(user)
    ensures user != "root"
  {
  }

  /** The user's hash reads back exactly when it has no colon; a locked root stays locked. */
  lemma HashReadsBack(s: Setup)
    requires SetupOk(s) && '\n' !in s.hash && '\r' !in s.hash
    ensures var f := ShadowFile(s.user, s.hash, s.lockRoot);
            && (Lookup(f, s.user, HASH_MAX) == Some(s.hash) <==> ':' !in s.hash)
            && (s.lockRoot ==> Lookup(f, "root", HASH_MAX) == Some("!"))
            && (!s.lockRoot && ':' !in s.hash ==> Lookup(f, "root", HASH_MAX) == Some(s.hash))
  {
    hide ValidUsername, Named;
    AccountFilesWhole(s);
    ValidUserText(s.user);
    NotRoot(s.user);
    var rootHash := if s.lockRoot then "!" else s.hash;
    var a, b := Entry("root", rootHash, AGING), Entry(s.user, s.hash, AGING);
    EntryReads("root", rootHash);
    UserIsSafe(s.user);
    EntryReads(s.user, s.hash);
    var rows := FirstRows(s.user, s.hash, s.lockRoot);
    RenderTwo(rows[0], rows[1]);
    TwoLines(a, b);
    LookupTwo(a, b, s.user, "root");
  }

  lemma TwoLines(a: string, b: string)
    requires IsLine(a) && IsLine(b)
    ensures Chunks(a + b) == [a, b]
  {
    hide IsLine;
    ChunksCons(a, b);
    ChunksCons(b, "");
    assert b + "" == b && Chunks("") == [];
  }

  lemma LookupTwo(a: string, b: string, user: string, root: string)
    requires Named(a, root) && Named(b, user) && user != root
    ensures LookupIn([a, b], user, HASH_MAX) == Field(b, 1, HASH_MAX)
    ensures LookupIn([a, b], root, HASH_MAX) == Field(a, 1, HASH_MAX)
  {
    assert [a, b][1..] == [b] && [b][1..] == [];
  }

  lemma UserIsSafe(user: string)
    requires ValidUsername(user)
    ensures Safe(user)
  {
    assert forall c :: c in user ==> NameChar(c) && !EndsField(c);
  }

  lemma EntryLine(user: string, hash: string)
    requires Safe(user) && 0 < |user| < NAME_MAX && |hash| < HASH_MAX && '\n' !in hash
    ensures IsLine(Entry(user, hash, AGING))
  {
    var e, text := Entry(user, hash, AGING), user + ":" + hash + ":" + AGING;
    assert e == text + "\n";
    hide Entry;
    assert '\n' !in AGING && |AGING| == 14;
    hide AGING;
    assert '\n' !in text && e[..|e| - 1] == text;
  }

  /** An entry whose hash may hold colons: the name reads back, the hash up to its first colon. */
  lemma EntryReads(user: string, hash: string)
    requires Safe(user) && 0 < |user| < NAME_MAX && |hash| < HASH_MAX && '\n' !in hash && '\r' !in hash
    ensures var e := Entry(user, hash, AGING);
            && IsLine(e) && Named(e, user)
            && (Field(e, 1, HASH_MAX) == Some(hash) <==> ':' !in hash)
  {
    var e := Entry(user, hash, AGING);
    var rest := hash + (":" + AGING + "\n");
    assert e == user + ":" + rest && e == user + (":" + rest);
    FieldTextOf(user, ":" + rest, NAME_MAX - 1);
    assert user[..|user|] == user;
    AfterFirstColon(user, rest, 1);
    EntryLine(user, hash);
    hide IsLine, Entry, AGING;
    if ':' !in hash {
      FieldTextOf(hash, ":" + AGING + "\n", HASH_MAX - 1);
      assert hash[..|hash|] == hash;
    } else {
      var t := FieldText(rest, HASH_MAX - 1);
      assert t == hash ==> ':' in t;
    }
  }

  /** The group file is not cut short. */
  lemma GroupFileWhole(user: string)
    requires |user| < NAME_MAX
    ensures var root, wheel := GroupLine("root", "x", "0", ""), GroupLine("wheel", "x", "10", user);
            var users := GroupLine("users", "x", "100", user);
            && |root| <= 100 && |wheel| <= 100 && |users| <= 100
            && GroupFileText(user, true) == root + (wheel + users) && GroupFileText(user, false) == root + users
  {
    hide GroupLine;
    GroupText("root", "0", "");
    GroupText("wheel", "10", user);
    GroupText("users", "100", user);
    assert "root" + ":x:" + "0" + ":" + "" + "\n" == "root:x:0:\n";
    assert "wheel" + ":x:" + "10" + ":" + user + "\n" == "wheel:x:10:" + user + "\n";
    assert "users" + ":x:" + "100" + ":" + user + "\n" == "users:x:100:" + user + "\n";
  }

  /** The user is in `users`, and in `wheel` exactly when asked. */
  lemma GroupsReadBack(s: Setup)
    requires SetupOk(s)
    ensures var ls := Chunks(GroupFileText(s.user, s.wheel));
            InGroup(ls, s.user, "users") && (InGroup(ls, s.user, "wheel") <==> s.wheel)
  {
    hide ValidUsername, GroupLine, GroupFileText, Lists, Named, InGroup, Field, IsLine, Chunks;
    ValidUserText(s.user);
    UserHasNoComma(s.user);
    var root, wheel := GroupLine("root", "x", "0", ""), GroupLine("wheel", "x", "10", s.user);
    var users := GroupLine("users", "x", "100", s.user);
    GroupFileWhole(s.user);
    GroupLineLists("root", "0", "", s.user);
    GroupLineLists("wheel", "10", s.user, s.user);
    GroupLineLists("users", "100", s.user, s.user);
    if s.wheel {
      ChunksCons(root, wheel + users);
      TwoLines(wheel, users);
      InGroupThree(root, wheel, users, s.user);
    } else {
      TwoLines(root, users);
      InGroupTwo(root, users, s.user);
    }
  }

  /** The groups the user gets at login: users first, then wheel when asked. */
  lemma FirstGroups(s: Setup, max: nat)
    requires SetupOk(s) && max >= 2
    ensures GroupsOf(Chunks(GroupFileText(s.user, s.wheel)), s.user, 100, max) == if s.wheel then [100, 10] else [100]
  {
    hide ValidUsername, GroupLine, GroupFileText, ListedGid, Lists, Named, Field, IsLine, Chunks, Fresh;
    ValidUserText(s.user);
    UserHasNoComma(s.user);
    var root, wheel := GroupLine("root", "x", "0", ""), GroupLine("wheel", "x", "10", s.user);
    var users := GroupLine("users", "x", "100", s.user);
    GroupFileWhole(s.user);
    GroupLineLists("root", "0", "", s.user);
    GroupLineLists("wheel", "10", s.user, s.user);
    GroupLineLists("users", "100", s.user, s.user);
    FirstGids(s.user);
    FreshOf();
    if s.wheel {
      ChunksCons(root, wheel + users);
      TwoLines(wheel, users);
      assert Chunks(GroupFileText(s.user, true)) == [root, wheel, users];
      GidsOf([root, wheel, users], s.user);
      assert ListedGids([root, wheel, users], s.user) == [10, 100];
    } else {
      TwoLines(root, users);
      GidsOf([root, users], s.user);
      assert ListedGids([root, users], s.user) == [100];
      assert [100] + [] == [100];
    }
  }

  lemma FreshOf()
    ensures Fresh([100], [10, 100]) == [10] && Fresh([100], [100]) == []
  {
    assert [10, 100][1..] == [100] && [100][1..] == [];
    assert [100] + [10] == [100, 10];
    assert Fresh([100, 10], [100]) == [];
  }

  lemma FirstGids(user: string)
    requires MemberName(user) && |user| < MEMBERS_MAX
    ensures ListedGid(GroupLine("root", "x", "0", ""), user) == None
    ensures ListedGid(GroupLine("wheel", "x", "10", user), user) == Some(10)
    ensures ListedGid(GroupLine("users", "x", "100", user), user) == Some(100)
  {
    assert ShowNat(0) == "0" && ShowNat(10) == "10" && ShowNat(100) == "100";
    GroupLineGid("root", "x", 0, "", user);
    GroupLineGid("wheel", "x", 10, user, user);
    GroupLineGid("users", "x", 100, user, user);
    TokensWith("", user);
  }

  /** The gid of a line as a list: empty when it does not list the user. */
  function GidOf(line: string, user: string): seq<nat> {
    match ListedGid(line, user) case None => [] case Some(g) => [g]
  }

  lemma GidsOf(ls: seq<string>, user: string)
    requires 2 <= |ls| <= 3
    ensures ListedGids(ls, user) ==
            GidOf(ls[0], user) + GidOf(ls[1], user) + if |ls| == 3 then GidOf(ls[2], user) else []
  {
    hide ListedGid;
    assert ls[1..][0] == ls[1] && ls[1..][1..] == ls[2..];
    assert ListedGids(ls[2..], user) == if |ls| == 3 then GidOf(ls[2], user) else [] by {
      if |ls| == 3 {
        assert ls[2..][0] == ls[2] && ls[2..][1..] == [];
      }
    }
  }

  lemma InGroupTwo(root: string, users: string, user: string)
    requires Named(root, "root") && Named(users, "users") && Lists(users, user)
    ensures InGroup([root, users], user, "users") && !InGroup([root, users], user, "wheel")
  {
    hide Lists;
    assert [root, users][1..] == [users] && [users][1..] == [];
    assert !InGroup([users], user, "wheel") && InGroup([users], user, "users");
  }

  lemma InGroupThree(root: string, wheel: string, users: string, user: string)
    requires Named(root, "root") && Named(users, "users") && Lists(users, user)
    requires Named(wheel, "wheel") && Lists(wheel, user)
    ensures InGroup([root] + [wheel, users], user, "users") && InGroup([root] + [wheel, users], user, "wheel")
  {
    hide Lists;
    assert ([root] + [wheel, users])[1..] == [wheel, users] && [wheel, users][1..] == [users];
    assert InGroup([users], user, "users");
    assert InGroup([wheel, users], user, "users") && InGroup([wheel, users], user, "wheel");
  }

  lemma GroupLineLists(group: string, gid: string, members: string, user: string)
    requires GroupName(group) && Safe(gid) && MemberName(user) && (members == "" || members == user) && |user| < MEMBERS_MAX
    requires |GroupLine(group, "x", gid, members)| <= LINE_ROOM
    ensures var l := GroupLine(group, "x", gid, members);
            IsLine(l) && Named(l, group) && (Lists(l, user) <==> members == user)
  {
    hide GroupLine;
    GroupLineReads(group, "x", gid, members);
    TokensWith("", user);
  }

  lemma UserHasNoComma(user: string)
    requires ValidUsername(user)
    ensures MemberName(user)
  {
    assert forall c :: c in user ==> NameChar(c) && !EndsField(c) && c != ',';
  }

  lemma GroupText(group: string, gid: string, members: string)
    ensures GroupLine(group, "x", gid, members) == group + ":x:" + gid + ":" + members + "\n"
  {
    var fs := [group, "x", gid, members];
    assert fs[1..] == ["x", gid, members] && fs[1..][1..] == [gid, members] && fs[1..][1..][1..] == [members];
    assert Join([gid, members]) == gid + ":" + members;
    assert Join(["x", gid, members]) == "x:" + Join([gid, members]);
    assert Join(fs) == group + ":" + Join(["x", gid, members]);
  }

  // ---- The modes ----

  datatype Profile = Minimal | Development | Desktop | Appliance

  /** A seed file as `apply_seed_file` reads it: unreadable or without a valid user and hash, or a setup. */
  datatype Seed = NoSeed | BadSeed | GoodSeed(setup: Setup)

  predicate SeedOk(seed: Seed) {
    seed.GoodSeed? ==> SetupOk(seed.setup) && seed.setup.hash != ""
  }

  /** The mode that writes the laboratory accounts, whose shadow file is rewritten after the markers. */
  predicate LabMode(profile: Profile, seed: Seed) {
    profile == Development && seed == NoSeed
  }

  predicate SafeAppliance(d: Disk) {
    AlreadyDone(d) ==>
      d.passwd == Some("root:x:0:0:root:/root:/bin/sh\n") && d.shadow == Some("root:!:0:0:99999:7:::\n") &&
      d.group == Some("root:x:0:\n")
  }

  /** `seed_appliance`: only root, locked. */
  method SeedAppliance(sys: System, io: BootIo) returns (rc: int)
    requires sys.Valid() && !AlreadyDone(sys.disk)
    modifies sys
    ensures sys.Valid() && (rc == 0 || rc == -1)
    ensures old(sys.trace) <= sys.trace
    ensures forall i :: |old(sys.trace)| <= i < |sys.trace| ==> SafeAppliance(sys.trace[i])
    ensures rc == 0 ==> AlreadyDone(sys.disk) && SafeAppliance(sys.disk) && sys.disk.autologin == None
    ensures AllFilesWell(io) ==> rc == 0 && sys.disk.rootDeny.Some?
  {
    hide System.Valid;
    rc := sys.WriteFile(PASSWD, "root:x:0:0:root:/root:/bin/sh\n", io);
    if rc != 0 {
      return;
    }
    rc := sys.WriteFile(SHADOW, "root:!:0:0:99999:7:::\n", io);
    if rc != 0 {
      return;
    }
    rc := sys.WriteFile(GROUP, "root:x:0:\n", io);
    if rc != 0 {
      return;
    }
    var ignored := sys.WriteFile(HOSTNAME, "ir0\n", io);
    ignored := sys.WriteFile(ROOT_DENY, "1\n", io);
    sys.Unlink(AUTOLOGIN);
    rc := sys.MarkDone(io);
  }

  method SeedDevelopment(sys: System, io: BootIo) returns (rc: int)
    requires sys.Valid() && !AlreadyDone(sys.disk)
    modifies sys
    ensures sys.Valid() && (rc == 0 || rc == -1)
    ensures rc == 0 ==> AlreadyDone(sys.disk) && sys.disk.autologin == Some("root\n") &&
                        sys.disk.shadow == Some("root::0:0:99999:7:::\nlabuser::0:0:99999:7:::\n")
    ensures AllFilesWell(io) ==> rc == 0
  {
    hide System.Valid;
    rc := sys.WriteFile(AUTOLOGIN, "root\n", io);
    if rc != 0 {
      return;
    }
    rc := sys.WriteAccounts(Setup("labuser", "ir0", "", true, false, true), io);
    if rc != 0 {
      return;
    }
    rc := sys.WriteFile(AUTOLOGIN, "root\n", io);
    if rc != 0 {
      return;
    }
    rc := sys.WriteFile(SHADOW, "root::0:0:99999:7:::\nlabuser::0:0:99999:7:::\n", io);
  }

  /**
    One run of firstboot. A run that finds a marker changes nothing. Otherwise, the
    laboratory mode aside, no crash leaves a marker beside incomplete accounts.
    `typed` is what the wizard ends with: a setup, or no hash.
   */
  method FirstbootMain(sys: System, profile: Profile, seed: Seed, early: bool, wizard: bool, terminal: bool,
              typed: Option<Setup>, io: BootIo) returns (rc: int)
    requires sys.Valid() && SeedOk(seed)
    requires typed.Some? ==> SetupOk(typed.value) && typed.value.wheel && typed.value.lockRoot && typed.value.recovery
    modifies sys
    ensures sys.Valid() && (rc == 0 || rc == 1)
    ensures var answered := profile == Development || profile == Appliance || seed != NoSeed ||
                            (!early && (wizard || terminal));
            && (old(AlreadyDone(sys.disk)) || !answered ==>
                  rc == 0 && sys.disk == old(sys.disk) && sys.trace == old(sys.trace))
            && (rc == 0 && answered ==> AlreadyDone(sys.disk))
    ensures AllFilesWell(io) && (profile == Appliance || seed != BadSeed) && typed.Some? ==> rc == 0
    ensures !old(AlreadyDone(sys.disk)) && !LabMode(profile, seed) ==>
              old(sys.trace) <= sys.trace &&
              forall i :: |old(sys.trace)| <= i < |sys.trace| ==>
                if seed.GoodSeed? && profile != Appliance then SafePoint(sys.trace[i], seed.setup)
                else if profile == Appliance then SafeAppliance(sys.trace[i])
                else typed.Some? && SafePoint(sys.trace[i], typed.value)
    ensures !old(AlreadyDone(sys.disk)) && rc == 0 && AlreadyDone(sys.disk) && !LabMode(profile, seed) ==>
              if seed.GoodSeed? && profile != Appliance then Complete(sys.disk, seed.setup)
              else if profile == Appliance then SafeAppliance(sys.disk)
              else typed.Some? && Complete(sys.disk, typed.value)
  {
    hide System.Valid, Complete, SetupOk;
    if AlreadyDone(sys.disk) {
      return 0;
    }
    if profile == Development {
      match seed {
        case NoSeed => rc := SeedDevelopment(sys, io);
        case BadSeed => rc := -1;
        case GoodSeed(setup) => rc := sys.WriteAccounts(setup, io);
      }
      return if rc != 0 then 1 else 0;
    }
    if profile == Appliance {
      rc := SeedAppliance(sys, io);
      return if rc != 0 then 1 else 0;
    }
    if seed != NoSeed {
      match seed {
        case BadSeed => rc := -1;
        case GoodSeed(setup) => rc := sys.WriteAccounts(setup, io);
      }
      return if rc != 0 then 1 else 0;
    }
    if early {
      return 0;
    }
    if wizard || terminal {
      if typed.None? {
        return 1;
      }
      rc := sys.WriteAccounts(typed.value, io);
      return if rc != 0 then 1 else 0;
    }
    return 0;
  }

  /** The console runs the wizard exactly when firstboot would not skip. */
  lemma PendingIsNotDone(d: Disk)
    ensures FirstbootPending(d) <==> !AlreadyDone(d)
  {
  }

  /** A hash with a colon from a seed file is cut when it is read back. */
  lemma ColonHashIsCut()
    ensures var s := Setup("alice", "ir0", "$6$a:b", true, true, true);
            SetupOk(s) && Lookup(ShadowFile(s.user, s.hash, s.lockRoot), s.user, HASH_MAX) != Some(s.hash)
  {
    var s := Setup("alice", "ir0", "$6$a:b", true, true, true);
    assert "$6$a:b"[4] == ':' && |"alice"| == 5 && "alice"[0] == 'a';
    hide ShadowFile, Lookup;
    HashReadsBack(s);
  }
}
