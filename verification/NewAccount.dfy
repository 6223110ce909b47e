/** What an added account can do: its login and its groups, after adduser finished or stopped half-way. */
module NewAccount {
  import opened Text
  import opened Fields
  import opened Shadow
  import opened ShadowLaws
  import opened Groups
  import opened GroupUpdate
  import opened Accounts
  import opened AccountDb
  import opened Login
  import opened Adduser
  import Firstboot

  // ---- Logging in on a rendered table ----

  /** Looking a hash up in the shadow file is looking it up in the table. */
  lemma {:induction false} LookupRendered(db: seq<Row>, user: string)
    requires AllRowsOk(db)
    ensures LookupIn(ShadowLines(db), user, HASH_MAX) ==
            match FindRow(db, Some(user), None) case None => None case Some(r) => Some(r.hash)
  {
    hide RowOk, ShadowLine;
    if db != [] {
      ShadowLineReads(db[0]);
      LookupRendered(db[1..], user);
    }
  }

  function TableFiles(db: seq<Row>, denyRoot: bool): LoginFiles {
    LoginFiles(Some(Render(db).passwd), Some(Render(db).shadow), denyRoot)
  }

  /** A login on the files of a table is a check against the user's row. */
  lemma TableLogin(crypt: Crypt, db: seq<Row>, denyRoot: bool, user: string, q: string)
    requires AllRowsOk(db) && user != ""
    ensures AuthUser(crypt, TableFiles(db, denyRoot), user, q) ==
            match FindRow(db, Some(user), None)
            case None => None
            case Some(r) =>
              if (user == "root" && denyRoot) || !Verify(crypt, r.hash, q) then None else Some(AccountOf(r))
  {
    hide RowOk, Verify, PasswdLine, ShadowLine, Chunks;
    RenderedChunks(db);
    FindInRendered(db, Some(user), None);
    LookupRendered(db, user);
  }

  /** The row that adduser adds. */
  function AddedRow(db: seq<Row>, user: string, hash: string): Row {
    NewRow(user, NextRowUid(db), hash)
  }

  lemma {:induction false} FindRowAppend(db: seq<Row>, r: Row, user: string)
    ensures FindRow(db + [r], Some(user), None) ==
            if HasName(db, user) then FindRow(db, Some(user), None) else if r.name == user then Some(r) else None
  {
    if db == [] {
      assert db + [r] == [r] && [r][1..] == [];
    } else {
      assert (db + [r])[1..] == db[1..] + [r];
      FindRowAppend(db[1..], r, user);
      FindRowByName(db[1..], user);
    }
  }

  /**
    After adduser the new user logs in with exactly the passwords that crypt to the new hash, the chosen one among
    them, and every other name logs in as before.
   */
  lemma NewAccountLogin(crypt: Crypt, db: seq<Row>, bound: nat, user: string, chosen: string, raw: seq<nat>,
                        denyRoot: bool, q: string, other: string)
    requires CryptLaw(crypt) && PasswordHash(crypt, chosen, raw, HASH_MAX).Some?
    requires Good(db) && UidsBelow(db, bound) && 1000 <= bound < TWO32 - 1
    requires ValidUsername(user) && !HasName(db, user)
    ensures var hash := PasswordHash(crypt, chosen, raw, HASH_MAX).value;
            var f := Exec(Render(db), Cmd.AddUser(user, hash));
            var after := LoginFiles(Some(f.passwd), Some(f.shadow), denyRoot);
            && (AuthUser(crypt, after, user, q).Some? <==> crypt(q, hash) == Some(hash))
            && AuthUser(crypt, after, user, chosen) == Some(AccountOf(AddedRow(db, user, hash)))
            && (other != user && other != "" ==>
                  AuthUser(crypt, after, other, q) == AuthUser(crypt, TableFiles(db, denyRoot), other, q))
  {
    hide RowOk, PasswdLine, ShadowLine, Chunks, AuthUser, Good, ValidUsername, PasswordHash, UidsBelow, Render, CryptLaw;
    var hash := PasswordHash(crypt, chosen, raw, HASH_MAX).value;
    PasswordHashStores(crypt, chosen, raw);
    UserIsPlain(user);
    AddUserRefines(db, Cmd.AddUser(user, hash), bound);
    var now := ExecRows(db, Cmd.AddUser(user, hash));
    assert now == db + [AddedRow(db, user, hash)];
    RowsAreOk(db);
    RowsAreOk(now);
    FindRowAppend(db, AddedRow(db, user, hash), user);
    FindRowAppend(db, AddedRow(db, user, hash), other);
    FindRowByName(db, other);
    TableLogin(crypt, now, denyRoot, user, q);
    TableLogin(crypt, now, denyRoot, user, chosen);
    if other != "" {
      TableLogin(crypt, now, denyRoot, other, q);
      TableLogin(crypt, db, denyRoot, other, q);
    }
  }

  lemma RowsAreOk(db: seq<Row>)
    requires Good(db)
    ensures AllRowsOk(db)
  {
  }

  lemma UserIsPlain(user: string)
    requires ValidUsername(user)
    ensures user != "" && user != "root" && Safe(user) && |user| < NAME_MAX && MemberName(user)
  {
    assert forall c :: c in user ==> NameChar(c) && !EndsField(c) && c != ',';
  }

  // ---- When adduser stops half-way ----

  /** The files a login reads out of those that adduser leaves. */
  function LoginAfter(f: EtcFiles, denyRoot: bool): LoginFiles {
    LoginFiles(f.passwd, f.shadow, denyRoot)
  }

  /** A piece of a text line that lost at least its newline is one read of the file, or none. */
  lemma PieceChunks(ls: seq<string>, line: string, piece: string)
    requires AllLines(ls) && IsLine(line) && piece < line
    ensures Chunks(Flatten(ls) + piece) == ls + if piece == "" then [] else [piece]
  {
    ChunksAfterLines(ls, piece);
    if piece == "" {
      assert Chunks(piece) == [];
    } else {
      assert '\n' !in piece by {
        assert forall i | 0 <= i < |piece| :: piece[i] == line[..|line| - 1][i];
      }
      LoneChunk(piece);
    }
  }

  /** With two colons read, a piece of the new passwd line says that the hash is in the shadow file. */
  lemma PieceIsShadowed(r: Row, piece: string)
    requires RowOk(r) && piece <= PasswdLine(r) && ParseAccount(piece).Some?
    ensures ParseAccount(piece).value.passwd == "x"
  {
    LineHead(r);
    assert AfterColons(piece, 2).Some?;
    hide PasswdLine, AfterColons, FieldText;
    var head := r.name + ":x:";
    if |piece| >= |head| {
      assert piece[..|head|] == head && piece == head + piece[|head|..];
      SecondIsX(r.name, piece[|head|..]);
    } else {
      assert piece == head[..|piece|];
      TooFewColons(r.name, piece);
    }
  }

  lemma SecondIsX(name: string, more: string)
    requires Safe(name)
    ensures Field(name + ":x:" + more, 1, HASH_MAX) == Some("x")
  {
    assert name + ":x:" + more == name + ":" + ("x" + (":" + more));
    AfterFirstColon(name, "x" + (":" + more), 1);
    FieldTextOf("x", ":" + more, HASH_MAX - 1);
    assert "x"[..1] == "x";
  }

  lemma TooFewColons(name: string, piece: string)
    requires Safe(name) && piece <= name + ":x"
    ensures AfterColons(piece, 2) == None
  {
    if |piece| > |name| {
      var more := piece[|name| + 1..];
      assert piece == name + ":" + more && more <= "x";
      AfterFirstColon(name, more, 2);
      NoColonLeft(more, 1);
    } else {
      assert piece <= name;
      assert forall c :: c in piece ==> c in name;
      NoColonLeft(piece, 2);
    }
  }

  lemma LineHead(r: Row)
    ensures r.name + ":x:" <= PasswdLine(r)
  {
    var fs := PasswdParts(r);
    assert fs[1..][0] == "x";
    assert Join(fs) == r.name + ":" + Join(fs[1..]) && Join(fs[1..]) == "x" + ":" + Join(fs[1..][1..]);
    assert PasswdLine(r) == r.name + ":x:" + (Join(fs[1..][1..]) + "\n");
  }

  lemma {:induction false} FindInAppend(a: seq<string>, b: seq<string>, user: Option<string>, uid: Option<nat>)
    requires FindIn(a, user, uid) == None
    ensures FindIn(a + b, user, uid) == FindIn(b, user, uid)
  {
    hide Match;
    if a == [] {
      assert a + b == b;
    } else {
      assert (a + b)[1..] == a[1..] + b;
      FindInAppend(a[1..], b, user, uid);
    }
  }

  /** Stopped in its passwd line, adduser leaves nobody who can log in. */
  lemma PartPasswdLogin(crypt: Crypt, db: seq<Row>, r: Row, piece: string, denyRoot: bool, q: string)
    requires AllRowsOk(db) && RowOk(r) && !HasName(db, r.name) && piece < PasswdLine(r)
    ensures AuthUser(crypt, LoginFiles(Some(Render(db).passwd + piece), Some(Render(db).shadow), denyRoot),
                     r.name, q) == None
  {
    hide RowOk, PasswdLine, ShadowLine, Chunks, Verify, IsLine, ParseAccount;
    RenderedLines(db);
    RenderedChunks(db);
    PasswdLineReads(r);
    PieceChunks(PasswdLines(db), PasswdLine(r), piece);
    FindInRendered(db, Some(r.name), None);
    FindRowByName(db, r.name);
    LookupRendered(db, r.name);
    var last := if piece == "" then [] else [piece];
    FindInAppend(PasswdLines(db), last, Some(r.name), None);
    assert last != [] ==> last[1..] == [];
    if ParseAccount(piece).Some? {
      PieceIsShadowed(r, piece);
    }
  }

  /** What a login finds as the hash in a piece of a shadow entry; nothing when the colon is not there yet. */
  function HashPiece(user: string, hash: string, piece: string): Option<string> {
    if |piece| <= |user| then None
    else if |piece| <= |user| + 1 + |hash| then Some(piece[|user| + 1..])
    else Some(hash)
  }

  lemma PieceReads(user: string, hash: string, piece: string)
    requires Writable(user, hash) && |hash| < HASH_MAX && piece <= Entry(user, hash, AGING)
    ensures (if Named(piece, user) then Field(piece, 1, HASH_MAX) else None) == HashPiece(user, hash, piece)
  {
    var tail := hash + (":" + AGING + "\n");
    assert Entry(user, hash, AGING) == user + ":" + tail;
    hide Entry, AGING;
    if |piece| <= |user| {
      assert piece <= user;
      assert forall c :: c in piece ==> c in user;
      NoColonLeft(piece, 1);
    } else {
      var t := piece[|user| + 1..];
      assert piece == user + ":" + t && t <= tail;
      FirstAndRest(user, t);
      HashRead(hash, tail, t);
      hide AfterColons, FieldText, Named, Field;
    }
  }

  lemma FirstAndRest(user: string, t: string)
    requires Safe(user) && |user| < NAME_MAX
    ensures Named(user + ":" + t, user) && Field(user + ":" + t, 1, HASH_MAX) == Some(FieldText(t, HASH_MAX - 1))
  {
    assert user + ":" + t == user + (":" + t) && user[..|user|] == user;
    FieldTextOf(user, ":" + t, NAME_MAX - 1);
    AfterFirstColon(user, t, 1);
    hide FieldText;
  }

  lemma HashRead(hash: string, tail: string, t: string)
    requires Safe(hash) && |hash| < HASH_MAX && t <= tail && |tail| > |hash| && hash <= tail && tail[|hash|] == ':'
    ensures FieldText(t, HASH_MAX - 1) == if |t| <= |hash| then t else hash
  {
    if |t| <= |hash| {
      assert t <= hash;
      assert forall c :: c in t ==> c in hash;
      FieldTextOf(t, "", HASH_MAX - 1);
      assert t + "" == t && t[..|t|] == t;
    } else {
      assert t == hash + t[|hash|..] && t[|hash|] == tail[|hash|];
      FieldTextOf(hash, t[|hash|..], HASH_MAX - 1);
      assert hash[..|hash|] == hash;
    }
  }

  lemma {:induction false} NotListedRendered(db: seq<Row>, user: string)
    requires AllRowsOk(db) && !HasName(db, user)
    ensures !Listed(ShadowLines(db), user)
  {
    hide RowOk, ShadowLine;
    if db != [] {
      ShadowLineReads(db[0]);
      NotListedRendered(db[1..], user);
    }
  }

  lemma PieceLookup(db: seq<Row>, r: Row, piece: string)
    requires AllRowsOk(db) && RowOk(r) && !HasName(db, r.name) && piece < Entry(r.name, r.hash, AGING)
    ensures Lookup(Render(db).shadow + piece, r.name, HASH_MAX) == HashPiece(r.name, r.hash, piece)
  {
    assert Writable(r.name, r.hash) && |r.hash| < HASH_MAX;
    hide RowOk, PasswdLine, ShadowLine, Chunks, IsLine, Named, Field, HashPiece, AGING;
    PieceReads(r.name, r.hash, piece);
    RenderedLines(db);
    EntryIsLine(r.name, r.hash, AGING);
    hide Entry;
    PieceChunks(ShadowLines(db), Entry(r.name, r.hash, AGING), piece);
    NotListedRendered(db, r.name);
    var last := if piece == "" then [] else [piece];
    LookupAppend(ShadowLines(db), last, r.name);
    assert last != [] ==> last[1..] == [];
    NoPiece(r.name, r.hash);
  }

  /** Stopped in its shadow entry, adduser leaves a login against as much of the hash as was written. */
  lemma PartShadowLogin(crypt: Crypt, db: seq<Row>, r: Row, piece: string, denyRoot: bool, q: string)
    requires AllRowsOk(db) && RowOk(r) && !HasName(db, r.name) && r.name != "root" && piece < Entry(r.name, r.hash, AGING)
    ensures var f := LoginFiles(Some(Render(db).passwd + PasswdLine(r)), Some(Render(db).shadow + piece), denyRoot);
            AuthUser(crypt, f, r.name, q).Some? <==>
            match HashPiece(r.name, r.hash, piece) case None => false case Some(h) => Verify(crypt, h, q)
  {
    assert r.name != "";
    PieceLookup(db, r, piece);
    hide RowOk, PasswdLine, ShadowLine, Chunks, Verify, ParseAccount, HashPiece, Entry, Lookup;
    RenderAppend(db, r);
    RowsAppend(db, r, "", 0, 0);
    RenderedChunks(db + [r]);
    FindInRendered(db + [r], Some(r.name), None);
    FindRowAppend(db, r, r.name);
  }

  lemma NoPiece(user: string, hash: string)
    ensures HashPiece(user, hash, "") == None
  {
  }

  lemma {:induction false} LookupAppend(a: seq<string>, b: seq<string>, user: string)
    requires !Listed(a, user)
    ensures LookupIn(a + b, user, HASH_MAX) == LookupIn(b, user, HASH_MAX)
  {
    hide Named, Field;
    if a == [] {
      assert a + b == b;
    } else {
      assert (a + b)[1..] == a[1..] + b;
      LookupAppend(a[1..], b, user);
    }
  }

  /** What `append_line` got out of a line. */
  function Piece(line: string, io: AppendIo): string {
    if io.open then Written(line, io.write, 0) else ""
  }

  lemma PieceIs(line: string, io: AppendIo)
    requires line != ""
    ensures Piece(line, io) <= line && (AppendRuns(line, io) <==> Piece(line, io) == line)
  {
  }

  /**
    Whatever an accepted adduser got done, the new user logs in exactly when the passwd line was written whole and
    the password checks against as much of the hash as reached the shadow file.
   */
  lemma AddedLogin(crypt: Crypt, db: seq<Row>, bound: nat, f: EtcFiles, user: string, hash: string, io: AddIo,
                   denyRoot: bool, q: string)
    requires Good(db) && UidsBelow(db, bound) && 1000 <= bound < TWO32 - 1
    requires ValidUsername(user) && !HasName(db, user) && StoredHash(hash)
    requires f.passwd == Some(Render(db).passwd) && f.shadow == Some(Render(db).shadow)
    ensures AuthUser(crypt, LoginAfter(AddEffect(f, user, hash, io).1, denyRoot), user, q).Some? <==>
            && AppendRuns(PasswdLine(AddedRow(db, user, hash)), io.passwd)
            && match HashPiece(user, hash, Piece(Entry(user, hash, AGING), io.shadow))
               case None => false
               case Some(h) => Verify(crypt, h, q)
  {
    var r := AddedRow(db, user, hash);
    UserIsPlain(user);
    RowsAreOk(db);
    NewRowIsOk(db, bound, user, hash);
    EffectOnTable(db, f, user, hash, io, denyRoot);
    var line, entry := PasswdLine(r), Entry(user, hash, AGING);
    WholePiece(user, hash);
    LineHead(r);
    assert line != "" && entry != "";
    hide RowOk, PasswdLine, Entry, Verify, HashPiece, AuthUser, Render, AddEffect, AppendRuns, ValidUsername, NextRowUid,
         Piece, Good, UidsBelow, AllRowsOk, HasName, StoredHash, LoginAfter, AGING;
    PieceIs(line, io.passwd);
    PieceIs(entry, io.shadow);
    var piece := Piece(entry, io.shadow);
    if !AppendRuns(line, io.passwd) {
      PartPasswdLogin(crypt, db, r, Piece(line, io.passwd), denyRoot, q);
    } else if piece == entry {
      WholeLogin(crypt, db, r, denyRoot, q);
    } else {
      PartShadowLogin(crypt, db, r, piece, denyRoot, q);
    }
  }

  lemma WholeLogin(crypt: Crypt, db: seq<Row>, r: Row, denyRoot: bool, q: string)
    requires AllRowsOk(db) && RowOk(r) && !HasName(db, r.name) && r.name != "root" && r.name != ""
    ensures var f := LoginFiles(Some(Render(db).passwd + PasswdLine(r)),
                                Some(Render(db).shadow + Entry(r.name, r.hash, AGING)), denyRoot);
            AuthUser(crypt, f, r.name, q).Some? <==> Verify(crypt, r.hash, q)
  {
    hide RowOk, PasswdLine, Entry, AuthUser, Verify;
    RenderAppend(db, r);
    RowsAppend(db, r, "", 0, 0);
    TableLogin(crypt, db + [r], denyRoot, r.name, q);
    FindRowAppend(db, r, r.name);
  }

  lemma NewRowIsOk(db: seq<Row>, bound: nat, user: string, hash: string)
    requires AllRowsOk(db) && UidsBelow(db, bound) && 1000 <= bound < TWO32 - 1
    requires ValidUsername(user) && StoredHash(hash)
    ensures RowOk(AddedRow(db, user, hash))
  {
    hide RowOk, ValidUsername;
    RoomBelow(db, bound, 1000);
    NewRowOk(user, NextRowUid(db), hash);
  }

  /** The passwd and shadow files that adduser leaves beside a table. */
  lemma EffectOnTable(db: seq<Row>, f: EtcFiles, user: string, hash: string, io: AddIo, denyRoot: bool)
    requires AllRowsOk(db)
    requires f.passwd == Some(Render(db).passwd) && f.shadow == Some(Render(db).shadow)
    ensures var line := PasswdLine(AddedRow(db, user, hash));
            LoginAfter(AddEffect(f, user, hash, io).1, denyRoot) ==
            LoginFiles(Some(Render(db).passwd + Piece(line, io.passwd)),
                       Some(if AppendRuns(line, io.passwd)
                            then Render(db).shadow + Piece(Entry(user, hash, AGING), io.shadow)
                            else Render(db).shadow), denyRoot)
  {
    hide PasswdLine, Entry, Chunks, Written, Ensure, EnsureRuns, RowOk;
    RenderedChunks(db);
    assert Render(db).passwd + "" == Render(db).passwd && Render(db).shadow + "" == Render(db).shadow;
  }

  lemma WholePiece(user: string, hash: string)
    requires hash != ""
    ensures HashPiece(user, hash, Entry(user, hash, AGING)) == Some(hash)
  {
  }

  /**
    So an account that adduser left half-made is not always locked: when the writes stop behind the colon of its
    shadow entry, exactly the empty password logs in.
   */
  lemma StoppedBehindColon(crypt: Crypt, db: seq<Row>, bound: nat, f: EtcFiles, user: string, hash: string, io: AddIo,
                           denyRoot: bool, q: string)
    requires Good(db) && UidsBelow(db, bound) && 1000 <= bound < TWO32 - 1
    requires ValidUsername(user) && !HasName(db, user) && StoredHash(hash)
    requires f.passwd == Some(Render(db).passwd) && f.shadow == Some(Render(db).shadow)
    requires (forall k: nat :: io.passwd.write(k) > 0) && io.passwd.open && io.shadow.open
    requires io.shadow.write(0) == |user| + 1 && io.shadow.write(1) == 0
    ensures AddEffect(f, user, hash, io).0 == 1
    ensures AuthUser(crypt, LoginAfter(AddEffect(f, user, hash, io).1, denyRoot), user, q).Some? <==> q == ""
  {
    hide Good, UidsBelow, ValidUsername, PasswdLine, Ensure, EnsureRuns, Render, AuthUser;
    var line, entry := PasswdLine(AddedRow(db, user, hash)), Entry(user, hash, AGING);
    WritesAll(line, io.passwd.write, 0);
    assert |entry| > |user| + 1 && entry[..|user| + 1] == user + ":";
    assert Written(entry[|user| + 1..], io.shadow.write, 1) == "";
    assert Written(entry, io.shadow.write, 0) == entry[..|user| + 1];
    AddedLogin(crypt, db, bound, f, user, hash, io, denyRoot, q);
  }

  // ---- The groups of a new account ----

  /** What decides whether one update makes the user a member. */
  predicate Joins(ls: seq<string>, group: string, user: string) {
    InGroup(ls, user, group) || !Listed(ls, group) || !Blocked(ls, group, user)
  }

  /** Updating one group leaves the lines of another as they are. */
  lemma {:induction false} OtherGroupKept(ls: seq<string>, group: string, gid: nat, user: string, has: bool,
                                          other: string, id: nat, had: bool)
    requires GroupName(group) && MemberName(user) && AdditionsFit(ls, group, gid, user, has) && other != group
    ensures var now := EnsureIn(ls, group, gid, user, has);
            && (Listed(now, other) <==> Listed(ls, other))
            && (Blocked(now, other, user) <==> Blocked(ls, other, user))
            && (AdditionsFit(now, other, id, user, had) <==> AdditionsFit(ls, other, id, user, had))
  {
    hide Mentions, AddedLine, MembersWith, Named;
    if ls != [] {
      var named := Named(ls[0], group);
      var now := has || (named && Mentions(ls[0], user));
      var hadNow := had || (Named(ls[0], other) && Mentions(ls[0], user));
      OtherGroupKept(ls[1..], group, gid, user, now, other, id, hadNow);
      if named {
        OneName(ls[0], group, other);
        if !now {
          AddedLineReads(ls[0], group, gid, user, user);
          AddedIsNamed(ls[0], group, gid, user);
          OneName(AddedLine(ls[0], group, gid, user), group, other);
        }
      }
    }
  }

  lemma AddedIsNamed(line: string, group: string, gid: nat, user: string)
    requires Field(AddedLine(line, group, gid, user), 0, NAME_MAX) == Some(group)
    ensures Named(AddedLine(line, group, gid, user), group)
  {
  }

  lemma {:induction false} PlainLineLast(ls: seq<string>, line: string, other: string, id: nat, user: string, had: bool)
    requires !Named(line, other)
    ensures (Listed(ls + [line], other) <==> Listed(ls, other))
            && (Blocked(ls + [line], other, user) <==> Blocked(ls, other, user))
            && (AdditionsFit(ls + [line], other, id, user, had) <==> AdditionsFit(ls, other, id, user, had))
  {
    hide Named, Mentions, AddedLine, MembersWith;
    var all := ls + [line];
    if ls == [] {
      assert all == [line] && all[1..] == [];
    } else {
      assert all[1..] == ls[1..] + [line];
      PlainLineLast(ls[1..], line, other, id, user, had || (Named(ls[0], other) && Mentions(ls[0], user)));
      PlainLineLast(ls[1..], line, other, id, user, had);
    }
  }

  lemma OtherGroupFits(file: string, group: string, gid: nat, user: string, other: string, id: nat)
    requires WellFormed(file) && GroupName(group) && MemberName(user) && GroupFits(Chunks(file), group, gid, user)
    requires other != group && GroupFits(Chunks(file), other, id, user)
    ensures var now := Chunks(Ensure(file, group, gid, user));
            && GroupFits(now, other, id, user) && (Listed(now, other) <==> Listed(Chunks(file), other))
            && (Blocked(now, other, user) <==> Blocked(Chunks(file), other, user))
  {
    hide GroupLine, EnsureIn, Blocked, AdditionsFit, Named, Chunks, Listed, Ensure;
    var ls := Chunks(file);
    EnsureChunks(file, group, gid, user);
    var body := EnsureIn(ls, group, gid, user, false);
    OtherGroupKept(ls, group, gid, user, false, other, id, false);
    if Listed(ls, group) {
      assert body + [] == body;
    } else {
      NewGroupMentions(group, gid, user);
      var line := GroupLine(group, "x", ShowNat(gid), user);
      OneName(line, group, other);
      PlainLineLast(body, line, other, id, user, false);
    }
  }

  lemma OneName(line: string, group: string, other: string)
    requires Named(line, group) && other != group
    ensures !Named(line, other)
  {
  }

  /**
    After adduser finished, the new user is in `users` and in `wheel` exactly when it was, when the group had no
    line, or when the group's first line does not mention the name; no other membership changed.
   */
  lemma NewMemberships(group: string, user: string, v: string, g: string)
    requires WellFormed(group) && ValidUsername(user)
    requires GroupFits(Chunks(group), "users", USERS_GID, user) && GroupFits(Chunks(group), "wheel", WHEEL_GID, user)
    ensures var ls := Chunks(group);
            var after := Chunks(Ensure(Ensure(group, "users", 100, user), "wheel", 10, user));
            InGroup(after, v, g) <==>
            if v == user && (g == "users" || g == "wheel") then Joins(ls, g, user) else InGroup(ls, v, g)
  {
    UserIsPlain(user);
    assert "users" != "wheel" && GroupName("users") && GroupName("wheel");
    hide GroupFits, Ensure, Chunks, InGroup, Listed, Blocked, ValidUsername, MemberName, GroupName;
    var once := Ensure(group, "users", USERS_GID, user);
    EnsureChunks(group, "users", USERS_GID, user);
    OtherGroupFits(group, "users", USERS_GID, user, "wheel", WHEEL_GID);
    EnsureMembership(group, "users", USERS_GID, user, v, g);
    EnsureMembership(group, "users", USERS_GID, user, user, "wheel");
    EnsureMembership(once, "wheel", WHEEL_GID, user, v, g);
  }

  // ---- The accounts of first boot ----

  /**
    After first boot the user logs in with exactly the passwords that crypt to the hash, the chosen one among them,
    and a locked root does not.
   */
  lemma FirstLogin(crypt: Crypt, s: Firstboot.Setup, chosen: string, raw: seq<nat>, denyRoot: bool, q: string)
    requires CryptLaw(crypt) && PasswordHash(crypt, chosen, raw, HASH_MAX) == Some(s.hash) && Firstboot.SetupOk(s)
    ensures var f := LoginFiles(Some(Firstboot.PasswdFile(s.user)),
                                Some(Firstboot.ShadowFile(s.user, s.hash, s.lockRoot)), denyRoot);
            && (AuthUser(crypt, f, s.user, q).Some? <==> crypt(q, s.hash) == Some(s.hash))
            && AuthUser(crypt, f, s.user, chosen) == Some(AccountOf(NewRow(s.user, 1000, s.hash)))
            && (s.lockRoot || denyRoot ==> AuthUser(crypt, f, "root", q) == None)
  {
    var db := FirstRows(s.user, s.hash, s.lockRoot);
    UserIsPlain(s.user);
    PasswordHashStores(crypt, chosen, raw);
    assert db[1..] == [NewRow(s.user, 1000, s.hash)] && db[1..][1..] == [];
    assert FindRow(db, Some(s.user), None) == Some(db[1]);
    assert Locked("!");
    hide AuthUser, RowOk, ValidUsername, Firstboot.PasswdFile, Firstboot.ShadowFile, Render;
    Firstboot.AccountFilesWhole(s);
    FirstRowsGood(s.user, s.hash, s.lockRoot);
    RowsAreOk(db);
    TableLogin(crypt, db, denyRoot, s.user, q);
    TableLogin(crypt, db, denyRoot, s.user, chosen);
    TableLogin(crypt, db, denyRoot, "root", q);
  }
}
