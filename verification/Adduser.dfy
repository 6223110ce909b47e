/** adduser(8): from what the operator typed to the three account files. */
module Adduser {
  import opened Text
  import opened Fields
  import opened Shadow
  import opened GroupUpdate
  import opened Accounts
  import opened AccountDb
  import opened Login

  const LINE_BUFFER: nat := 320
  const WHEEL_GID: nat := 10

  /** What the environment answers during one adduser. */
  datatype AddIo = AddIo(root: bool, home: bool, passwd: AppendIo, shadow: AppendIo, users: EnsureIo, wheel: EnsureIo)

  /** No write of the two appends and the two group updates fails. */
  ghost predicate WritesWork(io: AddIo) {
    && io.passwd.open && (forall k: nat :: io.passwd.write(k) > 0)
    && io.shadow.open && (forall k: nat :: io.shadow.write(k) > 0)
    && EnsureWorks(io.users) && EnsureWorks(io.wheel)
  }

  ghost predicate EnsureWorks(io: EnsureIo) {
    io.openTemp && io.fflush && io.rename && forall k: nat :: io.put(k)
  }

  lemma EnsureWorksRuns(file: string, group: string, user: string, io: EnsureIo)
    requires EnsureWorks(io)
    ensures EnsureRuns(file, group, user, io)
  {
  }

  /** The text of the `snprintf` for the passwd line. */
  function PasswdText(user: string, uid: nat, gid: nat, home: string): string {
    user + ":x:" + ShowNat(uid) + ":" + ShowNat(gid) + ":" + user + ":" + home + ":/bin/sh\n"
  }

  lemma JoinCons(f: string, rest: seq<string>)
    requires rest != []
    ensures Join([f] + rest) == f + ":" + Join(rest)
  {
    assert ([f] + rest)[1..] == rest;
  }

  lemma JoinPasswd(name: string, uid: string, gid: string, home: string)
    ensures Join([name, "x", uid, gid, name, home, "/bin/sh"]) ==
            name + ":x:" + uid + ":" + gid + ":" + name + ":" + home + ":/bin/sh"
  {
    var t2 := [name, home, "/bin/sh"];
    JoinHome(name, home);
    var t3 := [gid] + t2;
    var t4 := [uid] + t3;
    var t5 := ["x"] + t4;
    assert [name, "x", uid, gid, name, home, "/bin/sh"] == [name] + t5;
    hide Join;
    JoinCons(gid, t2);
    JoinCons(uid, t3);
    JoinCons("x", t4);
    JoinCons(name, t5);
    JoinText(name, uid, gid, Join(t2));
  }

  lemma JoinHome(name: string, home: string)
    ensures Join([name, home, "/bin/sh"]) == name + ":" + home + ":/bin/sh"
  {
    var t1 := [home] + ["/bin/sh"];
    assert [name, home, "/bin/sh"] == [name] + t1;
    JoinCons(home, ["/bin/sh"]);
    JoinCons(name, t1);
    assert Join(["/bin/sh"]) == "/bin/sh" && ":" + "/bin/sh" == ":/bin/sh";
  }

  lemma JoinText(name: string, uid: string, gid: string, rest: string)
    ensures name + ":" + ("x" + ":" + (uid + ":" + (gid + ":" + rest))) == name + ":x:" + uid + ":" + gid + ":" + rest
  {
    assert ":" + ("x" + ":") == ":x:";
  }

  /** Neither buffer is too small: the passwd line is written whole. */
  lemma PasswdTextIsLine(user: string, uid: nat, hash: string)
    requires ValidUsername(user) && uid < TWO32
    ensures Snprintf("/home/" + user, PATH_MAX) == "/home/" + user
    ensures Snprintf(PasswdText(user, uid, USERS_GID, "/home/" + user), LINE_BUFFER) == PasswdLine(NewRow(user, uid, hash))
  {
    IdLen(uid);
    IdLen(USERS_GID);
    JoinPasswd(user, ShowNat(uid), ShowNat(USERS_GID), "/home/" + user);
    assert PasswdParts(NewRow(user, uid, hash)) ==
           [user, "x", ShowNat(uid), ShowNat(USERS_GID), user, "/home/" + user, "/bin/sh"];
    assert PasswdLine(NewRow(user, uid, hash)) == PasswdText(user, uid, USERS_GID, "/home/" + user);
  }

  lemma ValidUserText(user: string)
    requires ValidUsername(user)
    ensures 2 <= |user| < NAME_MAX && '\0' !in user && '\0' !in "users" && '\0' !in "wheel"
  {
  }

  lemma ShadowTextIsLine(user: string, hash: string)
    requires |user| < NAME_MAX && |hash| < HASH_MAX
    ensures Snprintf(Entry(user, hash, AGING), LINE_BUFFER) == Entry(user, hash, AGING)
  {
  }

  // ---- The files ----

  datatype EtcFiles = EtcFiles(passwd: Option<string>, shadow: Option<string>, group: Option<string>)

  /** A file after `append_line`. */
  function AppendedTo(file: Option<string>, line: string, io: AppendIo): Option<string> {
    if io.open then Some(Get(file, "") + Written(line, io.write, 0)) else file
  }

  /** What the writes of an accepted command do, and its exit status. */
  ghost function AddEffect(f: EtcFiles, user: string, hash: string, io: AddIo): (int, EtcFiles) {
    var line := PasswdLine(NewRow(user, NextUidOf(Get(f.passwd, "")), hash));
    var entry := Entry(user, hash, AGING);
    var listed := f.(passwd := AppendedTo(f.passwd, line, io.passwd));
    if !AppendRuns(line, io.passwd) then (1, listed)
    else
      var hashed := listed.(shadow := AppendedTo(f.shadow, entry, io.shadow));
      if !AppendRuns(entry, io.shadow) || !EnsureRuns(Get(f.group, ""), "users", user, io.users) then (1, hashed)
      else
        var users := Ensure(Get(f.group, ""), "users", USERS_GID, user);
        if !EnsureRuns(users, "wheel", user, io.wheel) then (1, hashed.(group := Some(users)))
        else (0, hashed.(group := Some(Ensure(users, "wheel", WHEEL_GID, user))))
  }

  /** Exit 0 is the finished command on both tables and both groups, and it is what writes that work lead to. */
  lemma AddEffectMeans(f: EtcFiles, user: string, hash: string, io: AddIo)
    requires ValidUsername(user) && ByName(Get(f.passwd, ""), user) == None
    ensures var (rc, after) := AddEffect(f, user, hash, io);
            && (rc == 0 ==>
                  && Files(Get(after.passwd, ""), Get(after.shadow, "")) ==
                     Exec(Files(Get(f.passwd, ""), Get(f.shadow, "")), Cmd.AddUser(user, hash))
                  && after.group == Some(Ensure(Ensure(Get(f.group, ""), "users", 100, user), "wheel", 10, user)))
            && (WritesWork(io) ==> rc == 0)
  {
    hide Ensure, PasswdLine, Entry, NextUidIn, ValidUsername, EnsureRuns, Written, NewRow, FindIn, Chunks;
    var line := PasswdLine(NewRow(user, NextUidOf(Get(f.passwd, "")), hash));
    if WritesWork(io) {
      WritesAll(line, io.passwd.write, 0);
      WritesAll(Entry(user, hash, AGING), io.shadow.write, 0);
      EnsureWorksRuns(Get(f.group, ""), "users", user, io.users);
      EnsureWorksRuns(Ensure(Get(f.group, ""), "users", USERS_GID, user), "wheel", user, io.wheel);
    }
  }

  lemma StoredIsText(crypt: Crypt, password: string, raw: seq<nat>)
    requires CryptLaw(crypt) && PasswordHash(crypt, password, raw, HASH_MAX).Some?
    ensures var h := PasswordHash(crypt, password, raw, HASH_MAX).value; |h| < HASH_MAX && Safe(h)
  {
    PasswordHashStores(crypt, password, raw);
  }

  class Etc {
    var passwd: Option<string>
    const shadowFiles: ShadowFiles
    const groups: GroupFile

    constructor (passwd: Option<string>, shadowFiles: ShadowFiles, groups: GroupFile)
      ensures this.passwd == passwd && this.shadowFiles == shadowFiles && this.groups == groups
    {
      this.passwd := passwd;
      this.shadowFiles := shadowFiles;
      this.groups := groups;
    }

    predicate NulFree()
      reads this, shadowFiles, groups
    {
      && (passwd.Some? ==> '\0' !in passwd.value) && shadowFiles.NulFree()
      && (groups.group.Some? ==> '\0' !in groups.group.value)
    }

    function Tables(): Files
      reads this, shadowFiles
    {
      Files(Get(passwd, ""), Get(shadowFiles.shadow, ""))
    }

    ghost function State(): EtcFiles
      reads this, shadowFiles, groups
    {
      EtcFiles(passwd, shadowFiles.shadow, groups.group)
    }

    /** Everything adduser checks before it writes. */
    predicate Accepts(crypt: Crypt, user: string, pw1: Option<string>, pw2: Option<string>, raw: seq<nat>, io: AddIo)
      reads this, shadowFiles
    {
      && io.root && io.home && ValidUsername(user) && ByName(Tables().passwd, user) == None
      && pw1.Some? && pw2 == pw1 && pw1 != Some("") && PasswordHash(crypt, pw1.value, raw, HASH_MAX).Some?
    }

    /** The writes of an accepted command, in their order; the first that fails ends it. */
    method WriteAccount(user: string, hash: string, io: AddIo) returns (rc: int)
      requires NulFree() && ValidUsername(user) && |hash| < HASH_MAX
      modifies this, shadowFiles, groups
      ensures (rc, State()) == old(AddEffect(State(), user, hash, io))
    {
      hide Ensure, PasswdLine, Entry, NextUidIn, ValidUsername, EnsureRuns, Written, NewRow, PasswdText;
      ghost var before := State();
      ValidUserText(user);
      var uid := NextUid(passwd);
      NextUidFits(Chunks(Get(passwd, "")), 1000);
      PasswdTextIsLine(user, uid, hash);
      var home := Snprintf("/home/" + user, PATH_MAX);
      var line := Snprintf(PasswdText(user, uid, USERS_GID, home), LINE_BUFFER);
      assert line == PasswdLine(NewRow(user, NextUidOf(Get(before.passwd, "")), hash));
      var ok, text := AppendLine(Get(passwd, ""), line, io.passwd);
      passwd := if passwd.None? && !io.passwd.open then None else Some(text);
      assert Get(before.passwd, "") + "" == Get(before.passwd, "");
      assert passwd == AppendedTo(before.passwd, line, io.passwd);
      if ok != 0 {
        return 1;
      }
      ShadowTextIsLine(user, hash);
      var entry := Snprintf(Entry(user, hash, AGING), LINE_BUFFER);
      ok, text := AppendLine(Get(shadowFiles.shadow, ""), entry, io.shadow);
      shadowFiles.shadow := if shadowFiles.shadow.None? && !io.shadow.open then None else Some(text);
      assert Get(before.shadow, "") + "" == Get(before.shadow, "");
      assert shadowFiles.shadow == AppendedTo(before.shadow, entry, io.shadow);
      if ok != 0 {
        return 1;
      }
      ok := groups.EnsureGroupMember("users", USERS_GID, user, io.users);
      if ok != 0 {
        return 1;
      }
      EnsureNulFree(Get(before.group, ""), "users", USERS_GID, user);
      ok := groups.EnsureGroupMember("wheel", WHEEL_GID, user, io.wheel);
      if ok != 0 {
        return 1;
      }
      return 0;
    }

    /**
      The whole command. A command that is not accepted changes nothing. An accepted one leaves exactly what its
      writes got out; it exits 0 exactly when all of them ran, and then the passwd and shadow files are those of
      `Exec` and the group file has been through both membership updates.
     */
    method AddUser(crypt: Crypt, typed: string, pw1: Option<string>, pw2: Option<string>, raw: seq<nat>, io: AddIo)
      returns (rc: int)
      requires NulFree() && |raw| == SALT_LEN
      requires CryptLaw(crypt)
      modifies this, shadowFiles, groups
      ensures var user := Snprintf(typed, NAME_MAX);
              (rc, State()) == if old(Accepts(crypt, user, pw1, pw2, raw, io))
                               then old(AddEffect(State(), user, PasswordHash(crypt, pw1.value, raw, HASH_MAX).value, io))
                               else (1, old(State()))
      ensures var user := Snprintf(typed, NAME_MAX);
              rc == 0 ==>
                && old(Accepts(crypt, user, pw1, pw2, raw, io))
                && Tables() == Exec(old(Tables()), Cmd.AddUser(user, PasswordHash(crypt, pw1.value, raw, HASH_MAX).value))
                && groups.group == Some(Ensure(Ensure(Get(old(groups.group), ""), "users", 100, user),
                                               "wheel", 10, user))
      ensures old(Accepts(crypt, Snprintf(typed, NAME_MAX), pw1, pw2, raw, io)) && WritesWork(io) ==> rc == 0
    {
      hide AddEffect, Exec, Ensure, FindIn, Chunks, ValidUsername, PasswordHash;
      var user := Snprintf(typed, NAME_MAX);
      if !io.root {
        return 1;
      }
      var valid := CheckUsername(user);
      if !valid {
        return 1;
      }
      ValidUserText(user);
      var existing := AccountLookup(passwd, Some(user), None);
      if existing.Some? || pw1.None? || pw2.None? || pw1.value != pw2.value || pw1.value == "" {
        return 1;
      }
      var hash := HashPassword(crypt, pw1.value, raw, HASH_MAX);
      if hash.None? {
        return 1;
      }
      if !io.home {
        return 1;
      }
      StoredIsText(crypt, pw1.value, raw);
      ghost var before := State();
      rc := WriteAccount(user, hash.value, io);
      AddEffectMeans(before, user, hash.value, io);
    }
  }
}
