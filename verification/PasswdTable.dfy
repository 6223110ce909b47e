/** passwd(1) on the files of a table: whose row changes, and what else stays. */
module PasswdTable {
  import opened Text
  import opened Fields
  import opened Shadow
  import opened ShadowLaws
  import opened Accounts
  import opened AccountDb
  import opened Login
  import opened NewAccount

  lemma {:induction false} FindRowAt(db: seq<Row>, i: nat)
    requires Distinct(db) && i < |db|
    ensures FindRow(db, Some(db[i].name), None) == Some(db[i]) && FindRow(db, None, Some(db[i].uid)) == Some(db[i])
  {
    if i > 0 {
      HasNameAt(db[1..], i - 1);
      FindRowAt(db[1..], i - 1);
    }
  }

  lemma {:induction false} FindRowByUid(db: seq<Row>, uid: nat)
    ensures match FindRow(db, None, Some(uid))
            case None => !HasUid(db, uid)
            case Some(r) => HasUid(db, uid) && r.uid == uid && r in db
  {
    if db != [] {
      FindRowByUid(db[1..], uid);
    }
  }

  /** With unique names one row changes. */
  lemma {:induction false} WithHashAt(db: seq<Row>, i: nat, hash: string)
    requires Distinct(db) && i < |db|
    ensures WithHash(db, db[i].name, hash) == db[i := db[i].(hash := hash)]
  {
    if i == 0 {
      WithHashAbsent(db[1..], db[0].name, hash);
    } else {
      HasNameAt(db[1..], i - 1);
      WithHashAt(db[1..], i - 1, hash);
      hide HasName, HasUid, Distinct;
      UpdateBehind(db[0], db[1..], i - 1, db[i].(hash := hash));
      assert db == [db[0]] + db[1..];
    }
  }

  lemma UpdateBehind(first: Row, rest: seq<Row>, i: nat, r: Row)
    requires i < |rest|
    ensures ([first] + rest)[i + 1 := r] == [first] + rest[i := r]
  {
  }

  /** The files that passwd reads, of a table. */
  lemma TableAccounts(db: seq<Row>, name: string, uid: nat)
    requires AllRowsOk(db) && name != ""
    ensures ByName(Render(db).passwd, name) ==
            match FindRow(db, Some(name), None) case None => None case Some(r) => Some(AccountOf(r))
    ensures ByUid(Render(db).passwd, uid) ==
            match FindRow(db, None, Some(uid)) case None => None case Some(r) => Some(AccountOf(r))
    ensures ShadowHashOf(Some(Render(db).shadow), name) ==
            match FindRow(db, Some(name), None) case None => None case Some(r) => Some(r.hash)
  {
    hide RowOk, PasswdLine, ShadowLine, Chunks;
    RenderedChunks(db);
    FindInRendered(db, Some(name), None);
    FindInRendered(db, None, Some(uid));
    LookupRendered(db, name);
  }

  /**
    On the files of a table the command concerns row `i`: the one the argument names, the caller's own without an
    argument. When it is accepted, and by which old password; then the shadow file it leaves is that of the table
    with this one hash changed, and every other name reads what it read.
   */
  lemma PasswdOnTable(crypt: Crypt, db: seq<Row>, i: nat, ruid: nat, arg: string, typed: Typed, raw: seq<nat>,
                      other: string)
    requires CryptLaw(crypt) && Good(db) && i < |db|
    requires if arg == "" then db[i].uid == ruid else db[i].name == arg && HasUid(db, ruid)
    ensures var f := Render(db);
            Accepted(crypt, Some(f.passwd), Some(f.shadow), ruid, arg, typed, raw) <==>
            && (ruid == 0 || (db[i].uid == ruid && typed.current.Some? && Verify(crypt, db[i].hash, typed.current.value)))
            && typed.chosen.Some? && typed.confirm == typed.chosen && typed.chosen.value != ""
            && PasswordHash(crypt, typed.chosen.value, raw, HASH_MAX).Some?
    ensures var f := Render(db);
            Accepted(crypt, Some(f.passwd), Some(f.shadow), ruid, arg, typed, raw) ==>
              var user := if arg != "" then arg else ByUid(f.passwd, ruid).value.name;
              var hash := PasswordHash(crypt, typed.chosen.value, raw, HASH_MAX).value;
              && Target(Some(f.passwd), ruid, arg) == Some(AccountOf(db[i])) && user == db[i].name
              && Files(f.passwd, SetHash(f.shadow, user, hash)) == Render(db[i := db[i].(hash := hash)])
              && Exec(f, SetPassword(user, hash)) == Render(db[i := db[i].(hash := hash)])
              && (other != user && other != "" ==>
                    ShadowHashOf(Some(SetHash(f.shadow, user, hash)), other) == ShadowHashOf(Some(f.shadow), other))
  {
    hide RowOk, SetHash, Verify, PasswordHash, Render, ByName, ByUid, Lookup, Exec;
    RowNamed(db, i);
    TableAccounts(db, db[i].name, ruid);
    FindRowAt(db, i);
    FindRowByUid(db, ruid);
    var f := Render(db);
    if Accepted(crypt, Some(f.passwd), Some(f.shadow), ruid, arg, typed, raw) {
      HashChanges(crypt, db, i, typed, raw, other);
    }
  }

  lemma RowNamed(db: seq<Row>, i: nat)
    requires AllRowsOk(db) && i < |db|
    ensures db[i].name != ""
  {
    RowAt(db, db[i]);
  }

  lemma HashChanges(crypt: Crypt, db: seq<Row>, i: nat, typed: Typed, raw: seq<nat>, other: string)
    requires CryptLaw(crypt) && Good(db) && i < |db| && typed.chosen.Some?
    requires PasswordHash(crypt, typed.chosen.value, raw, HASH_MAX).Some?
    ensures var f := Render(db); var hash := PasswordHash(crypt, typed.chosen.value, raw, HASH_MAX).value;
            && Files(f.passwd, SetHash(f.shadow, db[i].name, hash)) == Render(db[i := db[i].(hash := hash)])
            && Exec(f, SetPassword(db[i].name, hash)) == Render(db[i := db[i].(hash := hash)])
            && (other != db[i].name && other != "" ==>
                  ShadowHashOf(Some(SetHash(f.shadow, db[i].name, hash)), other) == ShadowHashOf(Some(f.shadow), other))
  {
    hide RowOk, SetHash, PasswordHash, Render, ByName, Lookup, UidsBelow;
    var hash := PasswordHash(crypt, typed.chosen.value, raw, HASH_MAX).value;
    PasswordHashStores(crypt, typed.chosen.value, raw);
    RowNamed(db, i);
    var c := SetPassword(db[i].name, hash);
    var bound := UidBound(db);
    SetPasswordRefines(db, c, bound);
    WithHashAt(db, i, hash);
    TableAccounts(db, db[i].name, 0);
    FindRowAt(db, i);
    if other != "" && other != db[i].name {
      TableAccounts(db, other, 0);
      TableAccounts(WithHash(db, db[i].name, hash), other, 0);
      OtherRow(db, db[i].name, hash, other);
    }
  }

  /** Some bound on the uids of a table. */
  lemma {:induction false} UidBound(db: seq<Row>) returns (bound: nat)
    ensures UidsBelow(db, bound)
  {
    bound := 0;
    if db != [] {
      var rest := UidBound(db[1..]);
      bound := if db[0].uid < rest then rest else db[0].uid + 1;
      BelowMore(db[1..], rest, bound);
    }
  }

  lemma {:induction false} OtherRow(db: seq<Row>, user: string, hash: string, other: string)
    requires other != user
    ensures FindRow(WithHash(db, user, hash), Some(other), None) == FindRow(db, Some(other), None)
  {
    if db != [] {
      OtherRow(db[1..], user, hash, other);
    }
  }

  /** A caller without an account, and an argument that names none, are refused. */
  lemma PasswdRefused(crypt: Crypt, db: seq<Row>, ruid: nat, arg: string, typed: Typed, raw: seq<nat>)
    requires Good(db) && (!HasUid(db, ruid) || (arg != "" && !HasName(db, arg)))
    ensures !Accepted(crypt, Some(Render(db).passwd), Some(Render(db).shadow), ruid, arg, typed, raw)
  {
    hide RowOk, Render, ByName, ByUid, KnowsOld;
    TableAccounts(db, if arg == "" then "root" else arg, ruid);
    FindRowByUid(db, ruid);
    FindRowByName(db, arg);
  }
}
