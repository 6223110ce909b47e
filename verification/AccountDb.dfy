/**
  The account files as a table. Firstboot writes a two-row table, adduser adds a
  row, passwd changes one hash; every command keeps the files the rendering of a
  table with unique names and uids.
 */
module AccountDb {
  import opened Text
  import opened Fields
  import opened Shadow
  import opened ShadowLaws
  import opened Groups
  import opened Accounts

  datatype Row = Row(name: string, uid: nat, gid: nat, gecos: string, home: string, shell: string, hash: string)

  function PasswdParts(r: Row): seq<string> {
    [r.name, "x", ShowNat(r.uid), ShowNat(r.gid), r.gecos, r.home, r.shell]
  }

  function PasswdLine(r: Row): string {
    Join(PasswdParts(r)) + "\n"
  }

  function ShadowLine(r: Row): string {
    Entry(r.name, r.hash, AGING)
  }

  function PasswdLines(db: seq<Row>): seq<string> {
    if db == [] then [] else [PasswdLine(db[0])] + PasswdLines(db[1..])
  }

  function ShadowLines(db: seq<Row>): seq<string> {
    if db == [] then [] else [ShadowLine(db[0])] + ShadowLines(db[1..])
  }

  datatype Files = Files(passwd: string, shadow: string)

  function Render(db: seq<Row>): Files {
    Files(Flatten(PasswdLines(db)), Flatten(ShadowLines(db)))
  }

  predicate RowOk(r: Row) {
    && r.name != "" && r.name[0] != '#' && Safe(r.name) && |r.name| < NAME_MAX
    && r.uid < TWO32 && r.gid < TWO32 && Safe(r.gecos) && |r.gecos| < PATH_MAX
    && r.home != "" && Safe(r.home) && |r.home| < PATH_MAX
    && r.shell != "" && Safe(r.shell) && |r.shell| < PATH_MAX
    && Safe(r.hash) && |r.hash| < HASH_MAX
  }

  predicate AllRowsOk(db: seq<Row>) {
    db == [] || (RowOk(db[0]) && AllRowsOk(db[1..]))
  }

  predicate HasName(db: seq<Row>, name: string) {
    db != [] && (db[0].name == name || HasName(db[1..], name))
  }

  predicate HasUid(db: seq<Row>, uid: nat) {
    db != [] && (db[0].uid == uid || HasUid(db[1..], uid))
  }

  predicate Distinct(db: seq<Row>) {
    db == [] || (!HasName(db[1..], db[0].name) && !HasUid(db[1..], db[0].uid) && Distinct(db[1..]))
  }

  predicate Good(db: seq<Row>) {
    AllRowsOk(db) && Distinct(db)
  }

  function AccountOf(r: Row): Account {
    Account(r.name, "x", r.uid, r.gid, r.home, r.shell)
  }

  // ---- Lines of one row ----

  lemma PasswdJoinLen(r: Row)
    requires RowOk(r)
    ensures |PasswdLine(r)| <= LINE_ROOM && AllSafe(PasswdParts(r))
  {
    IdLen(r.uid);
    IdLen(r.gid);
    ShowNatDigits(r.uid);
    ShowNatDigits(r.gid);
    var last := [r.gecos, r.home, r.shell];
    assert last[1..] == [r.home, r.shell] && [r.home, r.shell][1..] == [r.shell] && [r.shell][1..] == [];
    assert TotalLen([r.shell]) == |r.shell| && TotalLen([r.home, r.shell]) == |r.home| + |r.shell|;
    assert TotalLen(last) == |r.gecos| + |r.home| + |r.shell|;
    var middle := [ShowNat(r.uid), ShowNat(r.gid)] + last;
    assert middle[1..] == [ShowNat(r.gid)] + last && ([ShowNat(r.gid)] + last)[1..] == last;
    var fs := PasswdParts(r);
    assert TotalLen([ShowNat(r.gid)] + last) == |ShowNat(r.gid)| + TotalLen(last);
    assert TotalLen(middle) == |ShowNat(r.uid)| + |ShowNat(r.gid)| + TotalLen(last);
    assert fs[1..] == ["x"] + middle && (["x"] + middle)[1..] == middle;
    assert TotalLen(["x"] + middle) == 1 + TotalLen(middle);
    JoinLen(fs);
  }

  function TotalLen(fs: seq<string>): nat {
    if fs == [] then 0 else |fs[0]| + TotalLen(fs[1..])
  }

  lemma {:induction false} JoinLen(fs: seq<string>)
    requires fs != []
    ensures |Join(fs)| == TotalLen(fs) + |fs| - 1
  {
    if |fs| > 1 {
      JoinLen(fs[1..]);
    } else {
      assert TotalLen(fs[1..]) == 0;
    }
  }

  lemma PasswdFields(r: Row)
    requires RowOk(r)
    ensures var l := PasswdLine(r);
            && Field(l, 0, NAME_MAX) == Some(r.name) && Field(l, 1, HASH_MAX) == Some("x")
            && Field(l, 2, ID_MAX) == Some(ShowNat(r.uid)) && Field(l, 3, ID_MAX) == Some(ShowNat(r.gid))
            && Field(l, 5, PATH_MAX) == Some(r.home) && Field(l, 6, PATH_MAX) == Some(r.shell)
  {
    hide Field, Join, AllSafe;
    var fs := PasswdParts(r);
    PasswdJoinLen(r);
    IdLen(r.uid);
    IdLen(r.gid);
    ReadWhole(fs, 0, NAME_MAX);
    ReadWhole(fs, 1, HASH_MAX);
    ReadWhole(fs, 2, ID_MAX);
    ReadWhole(fs, 3, ID_MAX);
    ReadWhole(fs, 5, PATH_MAX);
    ReadWhole(fs, 6, PATH_MAX);
  }

  lemma PasswdLineShape(r: Row)
    requires RowOk(r)
    ensures IsLine(PasswdLine(r)) && !Comment(PasswdLine(r))
  {
    var fs := PasswdParts(r);
    PasswdJoinLen(r);
    JoinIsLine(fs);
    assert Join(fs) == r.name + (":" + Join(fs[1..]));
    assert PasswdLine(r)[0] == r.name[0] && r.name[0] in r.name;
  }

  /** The passwd line of a row is one line of the file, and reads back as the row's account. */
  lemma PasswdLineReads(r: Row)
    requires RowOk(r)
    ensures IsLine(PasswdLine(r)) && !Comment(PasswdLine(r))
    ensures ParseAccount(PasswdLine(r)) == Some(AccountOf(r))
    ensures LineUid(PasswdLine(r)) == Some(r.uid) && Named(PasswdLine(r), r.name)
  {
    hide Field, PasswdLine, ToId, IsLine, Comment;
    PasswdFields(r);
    PasswdLineShape(r);
    IdRoundTrip(r.uid);
    IdRoundTrip(r.gid);
  }

  lemma ShadowLineReads(r: Row)
    requires RowOk(r)
    ensures IsLine(ShadowLine(r)) && Named(ShadowLine(r), r.name)
    ensures Field(ShadowLine(r), 1, HASH_MAX) == Some(r.hash)
  {
    EntryFields(r.name, r.hash, AGING);
    EntryIsLine(r.name, r.hash, AGING);
  }

  // ---- The rendered files ----

  lemma {:induction false} RenderedLines(db: seq<Row>)
    requires AllRowsOk(db)
    ensures AllLines(PasswdLines(db)) && AllLines(ShadowLines(db))
    ensures |PasswdLines(db)| == |db| && |ShadowLines(db)| == |db|
  {
    hide RowOk, PasswdLine, ShadowLine, IsLine;
    if db != [] {
      PasswdLineReads(db[0]);
      ShadowLineReads(db[0]);
      RenderedLines(db[1..]);
    }
  }

  lemma RenderedChunks(db: seq<Row>)
    requires AllRowsOk(db)
    ensures Chunks(Render(db).passwd) == PasswdLines(db) && Chunks(Render(db).shadow) == ShadowLines(db)
    ensures WellFormed(Render(db).passwd) && WellFormed(Render(db).shadow)
  {
    hide RowOk;
    RenderedLines(db);
    ChunksOfLines(PasswdLines(db));
    ChunksOfLines(ShadowLines(db));
  }

  function FindRow(db: seq<Row>, user: Option<string>, uid: Option<nat>): Option<Row> {
    if db == [] then None
    else if Wanted(AccountOf(db[0]), user, uid) then Some(db[0]) else FindRow(db[1..], user, uid)
  }

  /** Searching the passwd file is searching the table. */
  lemma {:induction false} FindInRendered(db: seq<Row>, user: Option<string>, uid: Option<nat>)
    requires AllRowsOk(db)
    ensures FindIn(PasswdLines(db), user, uid) ==
            match FindRow(db, user, uid) case None => None case Some(r) => Some(AccountOf(r))
  {
    hide RowOk, PasswdLine, ParseAccount, Comment;
    if db != [] {
      PasswdLineReads(db[0]);
      FindInRendered(db[1..], user, uid);
    }
  }

  lemma {:induction false} FindRowByName(db: seq<Row>, user: string)
    ensures match FindRow(db, Some(user), None)
            case None => !HasName(db, user)
            case Some(r) => HasName(db, user) && r.name == user && r in db
  {
    if db != [] {
      FindRowByName(db[1..], user);
    }
  }

  // ---- Commands ----

  /** A finished command and the hash it stored. */
  datatype Cmd = AddUser(user: string, hash: string) | SetPassword(user: string, hash: string)

  const USERS_GID: nat := 100

  function NewRow(user: string, uid: nat, hash: string): Row {
    Row(user, uid, USERS_GID, user, "/home/" + user, "/bin/sh", hash)
  }

  /** The account files after one command; a refused command leaves them. */
  function Exec(f: Files, c: Cmd): Files {
    match c
    case AddUser(user, hash) =>
      if ValidUsername(user) && ByName(f.passwd, user) == None
      then Files(f.passwd + PasswdLine(NewRow(user, NextUidOf(f.passwd), hash)), f.shadow + Entry(user, hash, AGING))
      else f
    case SetPassword(user, hash) =>
      match ByName(f.passwd, user)
      case None => f
      case Some(a) => f.(shadow := SetHash(f.shadow, a.name, hash))
  }

  function NextRowUid(db: seq<Row>): nat {
    NextUidIn(PasswdLines(db), 1000)
  }

  function WithHash(db: seq<Row>, user: string, hash: string): seq<Row> {
    if db == [] then []
    else [if db[0].name == user then db[0].(hash := hash) else db[0]] + WithHash(db[1..], user, hash)
  }

  function ExecRows(db: seq<Row>, c: Cmd): seq<Row> {
    match c
    case AddUser(user, hash) =>
      if ValidUsername(user) && !HasName(db, user) then db + [NewRow(user, NextRowUid(db), hash)] else db
    case SetPassword(user, hash) => WithHash(db, user, hash)
  }

  predicate CmdOk(c: Cmd) {
    Safe(c.hash) && |c.hash| < HASH_MAX && c.user != ""
  }

  predicate UidsBelow(db: seq<Row>, bound: nat) {
    db == [] || (db[0].uid < bound && UidsBelow(db[1..], bound))
  }

  lemma {:induction false} PasswdLinesAppend(db: seq<Row>, r: Row)
    ensures PasswdLines(db + [r]) == PasswdLines(db) + [PasswdLine(r)]
  {
    hide PasswdLine;
    if db == [] {
      assert db + [r] == [r] && [r][1..] == [];
    } else {
      PasswdLinesAppend(db[1..], r);
      assert (db + [r])[1..] == db[1..] + [r];
    }
  }

  lemma {:induction false} ShadowLinesAppend(db: seq<Row>, r: Row)
    ensures ShadowLines(db + [r]) == ShadowLines(db) + [ShadowLine(r)]
  {
    hide ShadowLine;
    if db == [] {
      assert db + [r] == [r] && [r][1..] == [];
    } else {
      ShadowLinesAppend(db[1..], r);
      assert (db + [r])[1..] == db[1..] + [r];
    }
  }

  /** One more row is one more line at the end of each file. */
  lemma RenderAppend(db: seq<Row>, r: Row)
    ensures Render(db + [r]).passwd == Render(db).passwd + PasswdLine(r)
    ensures Render(db + [r]).shadow == Render(db).shadow + ShadowLine(r)
  {
    hide PasswdLine, ShadowLine, PasswdLines, ShadowLines;
    PasswdLinesAppend(db, r);
    ShadowLinesAppend(db, r);
    FlattenConcat(PasswdLines(db), [PasswdLine(r)]);
    FlattenConcat(ShadowLines(db), [ShadowLine(r)]);
    FlattenOne(PasswdLine(r));
    FlattenOne(ShadowLine(r));
  }

  lemma {:induction false} RowsAppend(db: seq<Row>, r: Row, name: string, uid: nat, bound: nat)
    ensures AllRowsOk(db + [r]) <==> AllRowsOk(db) && RowOk(r)
    ensures UidsBelow(db + [r], bound) <==> UidsBelow(db, bound) && r.uid < bound
    ensures HasName(db + [r], name) <==> HasName(db, name) || r.name == name
    ensures HasUid(db + [r], uid) <==> HasUid(db, uid) || r.uid == uid
  {
    hide RowOk;
    if db == [] {
      assert db + [r] == [r] && [r][1..] == [];
    } else {
      RowsAppend(db[1..], r, name, uid, bound);
      assert (db + [r])[1..] == db[1..] + [r];
    }
  }

  lemma {:induction false} DistinctAppend(db: seq<Row>, r: Row)
    requires Distinct(db) && !HasName(db, r.name) && !HasUid(db, r.uid)
    ensures Distinct(db + [r])
  {
    if db == [] {
      assert db + [r] == [r] && [r][1..] == [];
    } else {
      DistinctAppend(db[1..], r);
      RowsAppend(db[1..], r, db[0].name, db[0].uid, 0);
      assert (db + [r])[1..] == db[1..] + [r];
    }
  }

  lemma {:induction false} RoomBelow(db: seq<Row>, bound: nat, next: nat)
    requires AllRowsOk(db) && UidsBelow(db, bound) && bound < TWO32 && next <= bound
    ensures next <= NextUidIn(PasswdLines(db), next) <= bound
    ensures UidsBelow(db, NextUidIn(PasswdLines(db), next))
  {
    hide RowOk, PasswdLine, LineUid, ParseAccount, Named, IsLine, Comment;
    if db != [] {
      PasswdLineReads(db[0]);
      assert PasswdLines(db)[0] == PasswdLine(db[0]) && PasswdLines(db)[1..] == PasswdLines(db[1..]);
      RoomBelow(db[1..], bound, if db[0].uid >= next then db[0].uid + 1 else next);
    }
  }

  lemma {:induction false} BelowNotHas(db: seq<Row>, uid: nat)
    requires UidsBelow(db, uid)
    ensures !HasUid(db, uid)
  {
    if db != [] {
      BelowNotHas(db[1..], uid);
    }
  }

  lemma {:induction false} BelowMore(db: seq<Row>, bound: nat, more: nat)
    requires UidsBelow(db, bound) && bound <= more
    ensures UidsBelow(db, more)
  {
    if db != [] {
      BelowMore(db[1..], bound, more);
    }
  }

  lemma NewRowOk(user: string, uid: nat, hash: string)
    requires ValidUsername(user) && uid < TWO32 && Safe(hash) && |hash| < HASH_MAX
    ensures RowOk(NewRow(user, uid, hash))
  {
    assert user[0] in user;
    assert forall c :: c in user ==> NameChar(c) && !EndsField(c);
    assert Safe("/home/") && Safe("/bin/sh");
  }

  /** adduser on the files is adding a row with an unused name and uid. */
  lemma AddUserRefines(db: seq<Row>, c: Cmd, bound: nat)
    requires Good(db) && CmdOk(c) && c.AddUser? && UidsBelow(db, bound) && 1000 <= bound < TWO32 - 1
    ensures Exec(Render(db), c) == Render(ExecRows(db, c))
    ensures Good(ExecRows(db, c)) && UidsBelow(ExecRows(db, c), bound + 1)
  {
    hide RowOk, ValidUsername, PasswdLine, Chunks, Render, Entry;
    RenderedChunks(db);
    FindInRendered(db, Some(c.user), None);
    FindRowByName(db, c.user);
    BelowMore(db, bound, bound + 1);
    if ValidUsername(c.user) && !HasName(db, c.user) {
      RoomBelow(db, bound, 1000);
      var r := NewRow(c.user, NextRowUid(db), c.hash);
      NewRowOk(c.user, NextRowUid(db), c.hash);
      BelowNotHas(db, r.uid);
      RowsAppend(db, r, "", 0, bound + 1);
      DistinctAppend(db, r);
      RenderAppend(db, r);
    }
  }

  lemma {:induction false} WithHashKeeps(db: seq<Row>, user: string, hash: string)
    requires AllRowsOk(db) && Safe(hash) && |hash| < HASH_MAX
    ensures AllRowsOk(WithHash(db, user, hash)) && PasswdLines(WithHash(db, user, hash)) == PasswdLines(db)
    ensures forall n :: HasName(WithHash(db, user, hash), n) == HasName(db, n)
    ensures forall u :: HasUid(WithHash(db, user, hash), u) == HasUid(db, u)
    ensures forall bound :: UidsBelow(WithHash(db, user, hash), bound) == UidsBelow(db, bound)
  {
    hide PasswdLine;
    if db != [] {
      WithHashKeeps(db[1..], user, hash);
      HashNotInPasswd(db[0], hash);
    }
  }

  lemma HashNotInPasswd(r: Row, hash: string)
    ensures PasswdLine(r.(hash := hash)) == PasswdLine(r)
  {
  }

  lemma {:induction false} WithHashDistinct(db: seq<Row>, user: string, hash: string)
    requires Good(db) && Safe(hash) && |hash| < HASH_MAX
    ensures Distinct(WithHash(db, user, hash))
  {
    hide RowOk;
    if db != [] {
      WithHashKeeps(db[1..], user, hash);
      WithHashDistinct(db[1..], user, hash);
    }
  }

  /** Rewriting the shadow lines of a table is changing one hash in it. */
  lemma {:induction false} RewriteRendered(db: seq<Row>, user: string, hash: string)
    requires AllRowsOk(db) && Writable(user, hash)
    ensures RewriteAll(ShadowLines(db), user, hash) == ShadowLines(WithHash(db, user, hash))
    ensures Listed(ShadowLines(db), user) <==> HasName(db, user)
  {
    hide RowOk, Entry, Aging, IsLine;
    if db != [] {
      RewriteRendered(db[1..], user, hash);
      var r := db[0];
      ShadowLineReads(r);
      RowIsWritable(r);
      AgingOfEntry(r.name, r.hash, AGING);
    }
  }

  lemma RowIsWritable(r: Row)
    requires RowOk(r)
    ensures Writable(r.name, r.hash)
  {
  }

  lemma {:induction false} WithHashAbsent(db: seq<Row>, user: string, hash: string)
    requires !HasName(db, user)
    ensures WithHash(db, user, hash) == db
  {
    if db != [] {
      WithHashAbsent(db[1..], user, hash);
    }
  }

  /** passwd on the files is changing one hash. */
  lemma SetPasswordRefines(db: seq<Row>, c: Cmd, bound: nat)
    requires Good(db) && CmdOk(c) && c.SetPassword? && UidsBelow(db, bound)
    ensures Exec(Render(db), c) == Render(ExecRows(db, c))
    ensures Good(ExecRows(db, c)) && UidsBelow(ExecRows(db, c), bound)
  {
    hide RowOk, PasswdLine, ShadowLine, Chunks, RewriteAll, Entry;
    RenderedChunks(db);
    FindInRendered(db, Some(c.user), None);
    FindRowByName(db, c.user);
    WithHashKeeps(db, c.user, c.hash);
    WithHashDistinct(db, c.user, c.hash);
    if HasName(db, c.user) {
      var r := FindRow(db, Some(c.user), None).value;
      RowAt(db, r);
      RowIsWritable(r);
      RewriteRendered(db, c.user, c.hash);
      var rewritten := RewriteAll(ShadowLines(db), c.user, c.hash);
      assert rewritten + [] == rewritten;
    } else {
      WithHashAbsent(db, c.user, c.hash);
    }
  }

  lemma {:induction false} RowAt(db: seq<Row>, r: Row)
    requires AllRowsOk(db) && r in db
    ensures RowOk(r)
  {
    hide RowOk;
    if db[0] != r {
      assert db == [db[0]] + db[1..];
      RowAt(db[1..], r);
    }
  }

  // ---- Whole runs ----

  function Run(f: Files, cmds: seq<Cmd>): Files
    decreases cmds
  {
    if cmds == [] then f else Run(Exec(f, cmds[0]), cmds[1..])
  }

  function RunRows(db: seq<Row>, cmds: seq<Cmd>): seq<Row>
    decreases cmds
  {
    if cmds == [] then db else RunRows(ExecRows(db, cmds[0]), cmds[1..])
  }

  predicate AllCmdsOk(cmds: seq<Cmd>) {
    cmds == [] || (CmdOk(cmds[0]) && AllCmdsOk(cmds[1..]))
  }

  lemma {:induction false} RunRefines(db: seq<Row>, cmds: seq<Cmd>, bound: nat)
    requires Good(db) && AllCmdsOk(cmds) && UidsBelow(db, bound) && 1000 <= bound && bound + |cmds| < TWO32
    ensures Run(Render(db), cmds) == Render(RunRows(db, cmds))
    ensures Good(RunRows(db, cmds)) && UidsBelow(RunRows(db, cmds), bound + |cmds|)
    decreases cmds
  {
    hide Good, Exec, ExecRows, Render, UidsBelow;
    if cmds != [] {
      var c := cmds[0];
      if c.AddUser? {
        AddUserRefines(db, c, bound);
      } else {
        SetPasswordRefines(db, c, bound);
        BelowMore(ExecRows(db, c), bound, bound + 1);
      }
      RunRefines(ExecRows(db, c), cmds[1..], bound + 1);
    }
  }

  /** What firstboot writes for an ordinary installation. */
  function FirstRows(user: string, hash: string, lockRoot: bool): seq<Row> {
    [Row("root", 0, 0, "root", "/root", "/bin/sh", if lockRoot then "!" else hash), NewRow(user, 1000, hash)]
  }

  lemma OneRow(r: Row, name: string, uid: nat)
    ensures HasName([r], name) <==> r.name == name
    ensures HasUid([r], uid) <==> r.uid == uid
    ensures Distinct([r])
  {
    assert [r][1..] == [];
  }

  lemma FirstRowsGood(user: string, hash: string, lockRoot: bool)
    requires ValidUsername(user) && Safe(hash) && |hash| < HASH_MAX
    ensures var db := FirstRows(user, hash, lockRoot); Good(db) && UidsBelow(db, 1001)
  {
    var db := FirstRows(user, hash, lockRoot);
    NewRowOk(user, 1000, hash);
    assert db[1..] == [NewRow(user, 1000, hash)] && db[1..][1..] == [];
    OneRow(NewRow(user, 1000, hash), "root", 0);
    assert !HasName(db[1..], "root") && !HasUid(db[1..], 0) && Distinct(db[1..]);
    assert Safe("root") && Safe("/root") && Safe("/bin/sh") && Safe("!");
  }

  /** Line for line the two files name the same accounts, each name and each uid once. */
  predicate Consistent(f: Files) {
    var p, s := Chunks(f.passwd), Chunks(f.shadow);
    && WellFormed(f.passwd) && WellFormed(f.shadow) && |p| == |s|
    && (forall i :: 0 <= i < |p| ==> ParseAccount(p[i]).Some? && Named(s[i], ParseAccount(p[i]).value.name))
    && (forall i, j :: 0 <= i < j < |p| ==>
          ParseAccount(p[i]).value.name != ParseAccount(p[j]).value.name &&
          ParseAccount(p[i]).value.uid != ParseAccount(p[j]).value.uid)
  }

  lemma {:induction false} LinesAt(db: seq<Row>, i: nat)
    requires AllRowsOk(db) && i < |db|
    ensures |PasswdLines(db)| == |db| && |ShadowLines(db)| == |db| && RowOk(db[i])
    ensures ParseAccount(PasswdLines(db)[i]) == Some(AccountOf(db[i]))
    ensures Named(ShadowLines(db)[i], db[i].name)
  {
    hide RowOk, PasswdLine, ShadowLine, ParseAccount, Named;
    RenderedLines(db);
    if i == 0 {
      PasswdLineReads(db[0]);
      ShadowLineReads(db[0]);
    } else {
      LinesAt(db[1..], i - 1);
    }
  }

  lemma {:induction false} HasNameAt(db: seq<Row>, i: nat)
    requires i < |db|
    ensures HasName(db, db[i].name) && HasUid(db, db[i].uid)
  {
    if i > 0 {
      HasNameAt(db[1..], i - 1);
    }
  }

  lemma {:induction false} DistinctAt(db: seq<Row>, i: nat, j: nat)
    requires Distinct(db) && i < j < |db|
    ensures db[i].name != db[j].name && db[i].uid != db[j].uid
  {
    if i == 0 {
      HasNameAt(db[1..], j - 1);
    } else {
      DistinctAt(db[1..], i - 1, j - 1);
    }
  }

  lemma RenderConsistent(db: seq<Row>)
    requires Good(db)
    ensures Consistent(Render(db))
  {
    hide RowOk, ParseAccount, Named, Chunks;
    RenderedChunks(db);
    RenderedLines(db);
    forall i | 0 <= i < |db|
      ensures ParseAccount(PasswdLines(db)[i]) == Some(AccountOf(db[i])) && Named(ShadowLines(db)[i], db[i].name)
    {
      LinesAt(db, i);
    }
    forall i, j | 0 <= i < j < |db|
      ensures db[i].name != db[j].name && db[i].uid != db[j].uid
    {
      DistinctAt(db, i, j);
    }
  }

  /**
    From firstboot's files, any sequence of adduser and passwd commands, fewer than the
    uids left, keeps the files consistent.
   */
  lemma WholeRun(user: string, hash: string, lockRoot: bool, cmds: seq<Cmd>)
    requires ValidUsername(user) && Safe(hash) && |hash| < HASH_MAX
    requires AllCmdsOk(cmds) && 1001 + |cmds| < TWO32
    ensures Consistent(Run(Render(FirstRows(user, hash, lockRoot)), cmds))
  {
    hide Consistent, ValidUsername;
    FirstRowsGood(user, hash, lockRoot);
    RunRefines(FirstRows(user, hash, lockRoot), cmds, 1001);
    RenderConsistent(RunRows(FirstRows(user, hash, lockRoot), cmds));
  }

  lemma {:induction false} FindConcat(a: seq<string>, b: seq<string>, user: Option<string>, uid: Option<nat>)
    requires FindIn(a, user, uid).Some?
    ensures FindIn(a + b, user, uid) == FindIn(a, user, uid)
  {
    hide Match;
    assert (a + b)[1..] == a[1..] + b;
    if Match(a[0], user, uid) == None {
      FindConcat(a[1..], b, user, uid);
    }
  }

  lemma ExecKeepsFound(f: Files, c: Cmd, user: Option<string>, uid: Option<nat>)
    requires WellFormed(f.passwd) && FindIn(Chunks(f.passwd), user, uid).Some?
    ensures FindIn(Chunks(Exec(f, c).passwd), user, uid) == FindIn(Chunks(f.passwd), user, uid)
  {
    hide PasswdLine, ValidUsername, FindIn;
    if Exec(f, c).passwd != f.passwd {
      var line := PasswdLine(NewRow(c.user, NextUidOf(f.passwd), c.hash));
      FlattenChunks(f.passwd);
      ChunksAfterLines(Chunks(f.passwd), line);
      FindConcat(Chunks(f.passwd), Chunks(line), user, uid);
    }
  }

  /** An account once found by its name or by its uid is found unchanged after any further commands. */
  lemma {:induction false} EarlierAccountsKept(db: seq<Row>, cmds: seq<Cmd>, bound: nat,
                                                  user: Option<string>, uid: Option<nat>)
    requires Good(db) && AllCmdsOk(cmds) && UidsBelow(db, bound) && 1000 <= bound && bound + |cmds| < TWO32
    requires FindIn(Chunks(Render(db).passwd), user, uid).Some?
    ensures FindIn(Chunks(Run(Render(db), cmds).passwd), user, uid) == FindIn(Chunks(Render(db).passwd), user, uid)
    decreases cmds
  {
    hide Good, Exec, ExecRows, UidsBelow, FindIn, Chunks;
    if cmds != [] {
      var c := cmds[0];
      WellRendered(db);
      ExecKeepsFound(Render(db), c, user, uid);
      if c.AddUser? {
        AddUserRefines(db, c, bound);
      } else {
        SetPasswordRefines(db, c, bound);
        BelowMore(ExecRows(db, c), bound, bound + 1);
      }
      EarlierAccountsKept(ExecRows(db, c), cmds[1..], bound + 1, user, uid);
    }
  }

  lemma WellRendered(db: seq<Row>)
    requires Good(db)
    ensures WellFormed(Render(db).passwd)
  {
    RenderedChunks(db);
  }

  /** A new account gets a uid of at least 1000 that is above every uid of the file. */
  lemma NewAccountUid(db: seq<Row>, user: string, hash: string, bound: nat)
    requires Good(db) && UidsBelow(db, bound) && 1000 <= bound < TWO32 - 1
    requires CmdOk(AddUser(user, hash)) && ValidUsername(user) && !HasName(db, user)
    ensures var uid := NextUidOf(Render(db).passwd);
            && 1000 <= uid < TWO32 && UidAbove(Chunks(Render(db).passwd), uid)
            && ByName(Exec(Render(db), AddUser(user, hash)).passwd, user) ==
               Some(AccountOf(NewRow(user, uid, hash)))
  {
    hide ValidUsername, RowOk, PasswdLine, Chunks;
    var c := AddUser(user, hash);
    RenderedChunks(db);
    RoomBelow(db, bound, 1000);
    BelowMeansAbove(db, NextRowUid(db));
    AddUserRefines(db, c, bound);
    var after := ExecRows(db, c);
    RenderedChunks(after);
    FindInRendered(after, Some(user), None);
    LastRowFound(db, NewRow(user, NextRowUid(db), hash));
  }

  lemma {:induction false} BelowMeansAbove(db: seq<Row>, uid: nat)
    requires AllRowsOk(db) && UidsBelow(db, uid)
    ensures UidAbove(PasswdLines(db), uid)
  {
    hide RowOk, PasswdLine, LineUid;
    if db != [] {
      PasswdLineReads(db[0]);
      BelowMeansAbove(db[1..], uid);
    }
  }

  lemma {:induction false} LastRowFound(db: seq<Row>, r: Row)
    requires !HasName(db, r.name)
    ensures FindRow(db + [r], Some(r.name), None) == Some(r)
  {
    if db == [] {
      assert db + [r] == [r];
    } else {
      assert (db + [r])[1..] == db[1..] + [r];
      LastRowFound(db[1..], r);
    }
  }

  /** With an account whose uid is 4294967295, the next uid is root's. */
  lemma NextUidWraps()
    ensures NextUidOf(Render([Row("max", TWO32 - 1, 100, "", "/", "/bin/sh", "!")]).passwd) == 0
  {
    var r := Row("max", TWO32 - 1, 100, "", "/", "/bin/sh", "!");
    assert RowOk(r) && [r][1..] == [];
    PasswdLineReads(r);
    RenderedChunks([r]);
    assert PasswdLines([r]) == [PasswdLine(r)] && [PasswdLine(r)][1..] == [];
    hide PasswdLine, Render, Chunks, LineUid;
    assert NextUidIn([PasswdLine(r)], 1000) == NextUidIn([], 0);
  }
}
