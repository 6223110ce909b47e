/** Password checking, the console's `auth_user`, and passwd(1) from its arguments to the shadow file. */
module Login {
  import opened Text
  import opened Fields
  import opened Shadow
  import opened ShadowLaws
  import opened Accounts

  /** `crypt(key, setting)`; None stands for a null result. */
  type Crypt = (string, string) -> Option<string>

  /** What is taken of crypt(3): a result that starts with `$` is field text, and hashes its key to itself. */
  ghost predicate CryptLaw(crypt: Crypt) {
    forall key: string, setting: string ::
      match crypt(key, setting)
      case None => true
      case Some(h) => h != "" && h[0] == '$' ==> Safe(h) && crypt(key, h) == Some(h)
  }

  predicate Locked(stored: string) {
    (stored != "" && stored[0] == '!') || stored == "*"
  }

  /** `ir0_password_verify` */
  predicate Verify(crypt: Crypt, stored: string, password: string) {
    if Locked(stored) then false
    else if stored == "" then password == ""
    else stored[0] == '$' && crypt(password, stored) == Some(stored)
  }

  const SALT_CHARS := "./0123456789ABCDEFGHIJKLMNOPQRSTUVWXYZabcdefghijklmnopqrstuvwxyz"
  const SALT_LEN: nat := 16

  /** `random_salt` on the random bytes it got. */
  method RandomSalt(raw: seq<nat>) returns (salt: string)
    requires |raw| == SALT_LEN
    ensures salt == Salt(raw)
  {
    salt := "";
    for i := 0 to SALT_LEN
      invariant salt == Salt(raw[..i])
    {
      assert raw[..i + 1][..i] == raw[..i];
      salt := salt + [SALT_CHARS[raw[i] % |SALT_CHARS|]];
    }
    assert raw[..SALT_LEN] == raw;
  }

  function Salt(raw: seq<nat>): string {
    if raw == [] then "" else Salt(raw[..|raw| - 1]) + [SALT_CHARS[raw[|raw| - 1] % |SALT_CHARS|]]
  }

  /** `ir0_password_hash` */
  function PasswordHash(crypt: Crypt, password: string, raw: seq<nat>, outlen: nat): Option<string> {
    match crypt(password, "$6$" + Salt(raw))
    case None => None
    case Some(h) => if h == "" || h[0] != '$' || |h| + 1 > outlen then None else Some(h)
  }

  method HashPassword(crypt: Crypt, password: string, raw: seq<nat>, outlen: nat) returns (hash: Option<string>)
    requires |raw| == SALT_LEN
    ensures hash == PasswordHash(crypt, password, raw, outlen)
  {
    if outlen == 0 {
      return None;
    }
    var salt := RandomSalt(raw);
    hash := crypt(password, "$6$" + salt);
    if hash.None? || hash.value == "" || hash.value[0] != '$' || |hash.value| + 1 > outlen {
      hash := None;
    }
  }

  /** A hash the tools store: a login with it is checked by crypt, and an entry can carry it. */
  predicate StoredHash(hash: string) {
    hash != "" && hash[0] == '$' && Safe(hash) && |hash| < HASH_MAX
  }

  lemma PasswordHashStores(crypt: Crypt, password: string, raw: seq<nat>)
    requires CryptLaw(crypt) && PasswordHash(crypt, password, raw, HASH_MAX).Some?
    ensures var h := PasswordHash(crypt, password, raw, HASH_MAX).value;
            StoredHash(h) && Verify(crypt, h, password)
  {
    assert crypt(password, "$6$" + Salt(raw)).Some?;
  }

  /** The setting is for SHA-512 with a salt of 16 characters, each taken by one random byte from the crypt alphabet. */
  lemma PasswordHashSetting(crypt: Crypt, password: string, raw: seq<nat>, outlen: nat)
    requires |raw| == 16
    ensures |SALT_CHARS| == 64
    ensures PasswordHash(crypt, password, raw, outlen).Some? ==>
              exists salt :: crypt(password, "$6$" + salt) == PasswordHash(crypt, password, raw, outlen) && |salt| == 16 &&
                             forall i :: 0 <= i < 16 ==> salt[i] == SALT_CHARS[raw[i] % 64]
  {
    SaltAt(raw);
  }

  lemma {:induction false} SaltAt(raw: seq<nat>)
    ensures |Salt(raw)| == |raw| && forall i :: 0 <= i < |raw| ==> Salt(raw)[i] == SALT_CHARS[raw[i] % |SALT_CHARS|]
  {
    hide SALT_CHARS;
    if raw != [] {
      SaltAt(raw[..|raw| - 1]);
    }
  }

  /** The files a login reads. */
  datatype LoginFiles = LoginFiles(passwd: Option<string>, shadow: Option<string>, denyRoot: bool)

  predicate InShadow(a: Account) {
    a.passwd == "x" || a.passwd == "*"
  }

  function ShadowHashOf(shadow: Option<string>, user: string): Option<string> {
    match shadow case None => None case Some(f) => Lookup(f, user, HASH_MAX)
  }

  /** The field a password is checked against. */
  function StoredOf(shadow: Option<string>, a: Account, user: string): Option<string> {
    if InShadow(a) then ShadowHashOf(shadow, user) else Some(a.passwd)
  }

  predicate RootDenied(f: LoginFiles, user: string) {
    user == "root" && f.denyRoot
  }

  /** `auth_user`: the account of an accepted login. */
  function AuthUser(crypt: Crypt, f: LoginFiles, user: string, password: string): Option<Account> {
    match ByName(Get(f.passwd, ""), user)
    case None => None
    case Some(a) =>
      if RootDenied(f, user) then None
      else match StoredOf(f.shadow, a, user)
           case None => None
           case Some(stored) => if Verify(crypt, stored, password) then Some(a) else None
  }

  /** The code of `auth_user`: look up, refuse root, find the stored field, verify. */
  method Authenticate(crypt: Crypt, passwd: Option<string>, files: ShadowFiles, denyRoot: bool,
                      user: string, password: string) returns (a: Option<Account>)
    requires files.NulFree() && (passwd.Some? ==> '\0' !in passwd.value)
    ensures a == AuthUser(crypt, LoginFiles(passwd, files.shadow, denyRoot), user, password)
  {
    hide FindIn, Lookup;
    if user == "" {
      return None;
    }
    a := AccountLookup(passwd, Some(user), None);
    if a.None? {
      return None;
    }
    if user == "root" && denyRoot {
      return None;
    }
    var stored := a.value.passwd;
    if a.value.passwd == "x" || a.value.passwd == "*" {
      var hash := new char[HASH_MAX];
      var rc := files.ShadowHash(user, hash);
      if rc != 0 {
        return None;
      }
      stored := CString(hash[..]);
    }
    if !Verify(crypt, stored, password) {
      return None;
    }
  }

  /** Root cannot log in while the deny file exists, and nobody can with a locked field. */
  lemma NoLockedLogin(crypt: Crypt, f: LoginFiles, user: string, password: string)
    requires AuthUser(crypt, f, user, password).Some?
    ensures user != "" && !(user == "root" && f.denyRoot)
    ensures var a := AuthUser(crypt, f, user, password).value;
            && a.name == user && ByName(Get(f.passwd, ""), user) == Some(a)
            && StoredOf(f.shadow, a, user).Some? && !Locked(StoredOf(f.shadow, a, user).value)
  {
    FindInIsWanted(Chunks(Get(f.passwd, "")), Some(user), None);
  }

  /**
    What a login is checked against: for a passwd field other than `x` and `*` that very field, else the field of the
    first shadow line of the user. An empty field takes the empty password, one that begins with `$` what crypts to it,
    and every other field nothing.
   */
  lemma LoginChecks(crypt: Crypt, f: LoginFiles, user: string, password: string, a: Account)
    requires ByName(Get(f.passwd, ""), user) == Some(a) && !(user == "root" && f.denyRoot)
    ensures var field := if a.passwd != "x" && a.passwd != "*" then Some(a.passwd)
                         else if f.shadow.Some? then Lookup(f.shadow.value, user, HASH_MAX) else None;
            AuthUser(crypt, f, user, password) ==
            if field.Some? && (if field.value == "" then password == ""
                               else field.value[0] == '$' && crypt(password, field.value) == field)
            then Some(a) else None
  {
    hide ByName, Lookup;
  }

  lemma {:induction false} FindInIsWanted(ls: seq<string>, user: Option<string>, uid: Option<nat>)
    ensures FindIn(ls, user, uid).Some? ==> Wanted(FindIn(ls, user, uid).value, user, uid)
  {
    hide ParseAccount;
    if ls != [] {
      FindInIsWanted(ls[1..], user, uid);
    }
  }

  // ---- passwd(1) ----

  /** What the caller typed; None is a read error. */
  datatype Typed = Typed(current: Option<string>, chosen: Option<string>, confirm: Option<string>)

  function Caller(passwd: Option<string>, ruid: nat): Option<Account> {
    ByUid(Get(passwd, ""), ruid)
  }

  /** The account named by the argument, the caller's own without one. */
  function Target(passwd: Option<string>, ruid: nat, arg: string): Option<Account> {
    if Caller(passwd, ruid).None? then None
    else if arg != "" then ByName(Get(passwd, ""), arg) else Caller(passwd, ruid)
  }

  /** The caller may change the target's password. */
  predicate MayChange(crypt: Crypt, passwd: Option<string>, shadow: Option<string>, ruid: nat, arg: string, typed: Typed) {
    match Target(passwd, ruid, arg)
    case None => false
    case Some(t) =>
      ruid == 0 || (t.uid == ruid && KnowsOld(crypt, shadow, t, typed))
  }

  /** The current password was typed and is right. */
  predicate KnowsOld(crypt: Crypt, shadow: Option<string>, t: Account, typed: Typed) {
    typed.current.Some? &&
    match StoredOf(shadow, t, t.name)
    case None => false
    case Some(stored) => Verify(crypt, stored, typed.current.value)
  }

  /** The check of the old password: the stored field, then the typed one against it. */
  method OldPasswordGiven(crypt: Crypt, files: ShadowFiles, t: Account, typed: Typed) returns (known: bool)
    requires files.NulFree()
    ensures known <==> KnowsOld(crypt, files.shadow, t, typed)
  {
    hide Lookup, Verify;
    var cur := t.passwd;
    if t.passwd == "x" || t.passwd == "*" {
      var hash := new char[HASH_MAX];
      var found := files.ShadowHash(t.name, hash);
      if found != 0 {
        return false;
      }
      cur := CString(hash[..]);
    }
    known := typed.current.Some? && Verify(crypt, cur, typed.current.value);
  }

  predicate NewPassword(typed: Typed) {
    typed.chosen.Some? && typed.confirm == typed.chosen && typed.chosen != Some("")
  }

  /** The command gets as far as writing: the caller may, and the new password is good and was hashed. */
  predicate Accepted(crypt: Crypt, passwd: Option<string>, shadow: Option<string>, ruid: nat, arg: string, typed: Typed,
                     raw: seq<nat>)
  {
    && MayChange(crypt, passwd, shadow, ruid, arg, typed) && NewPassword(typed)
    && PasswordHash(crypt, typed.chosen.value, raw, HASH_MAX).Some?
  }

  /**
    passwd(1). Exit 0 means the caller was allowed, the two new passwords agree, and the
    shadow file is the old one with the hash replaced of the user named by the argument, or of the caller's own
    account without one; any other exit leaves it.
   */
  method Passwd(crypt: Crypt, passwd: Option<string>, files: ShadowFiles, ruid: nat, arg: string, typed: Typed,
                raw: seq<nat>, io: SetHashIo) returns (rc: int)
    requires files.NulFree() && (passwd.Some? ==> '\0' !in passwd.value) && |raw| == SALT_LEN
    modifies files
    ensures rc == 0 || rc == 1
    ensures rc == 1 ==> files.shadow == old(files.shadow)
    ensures rc == 0 <==> Accepted(crypt, passwd, old(files.shadow), ruid, arg, typed, raw) &&
                         old(files.AllWell(Target(passwd, ruid, arg).value.name, io))
    ensures rc == 0 ==>
              && (arg == "" ==> ByUid(Get(passwd, ""), ruid).Some?)
              && var user := if arg != "" then arg else ByUid(Get(passwd, ""), ruid).value.name;
                 files.shadow == Some(SetHash(old(files.shadow).value, user,
                                              PasswordHash(crypt, typed.chosen.value, raw, HASH_MAX).value))
  {
    hide FindIn, Lookup, SetHash, Chunks, KnowsOld, PasswordHash, UpdateRuns;
    var caller := AccountLookup(passwd, None, Some(ruid));
    if caller.None? {
      return 1;
    }
    var target := caller;
    if arg != "" {
      target := AccountLookup(passwd, Some(arg), None);
      if target.None? {
        return 1;
      }
      FindInIsWanted(Chunks(Get(passwd, "")), Some(arg), None);
    }
    var t := target.value;
    if ruid != 0 && t.uid != ruid {
      return 1;
    }
    if ruid != 0 {
      var known := OldPasswordGiven(crypt, files, t, typed);
      if !known {
        return 1;
      }
    }
    if typed.chosen.None? || typed.confirm.None? || typed.chosen.value != typed.confirm.value || typed.chosen.value == "" {
      return 1;
    }
    var hash := HashPassword(crypt, typed.chosen.value, raw, HASH_MAX);
    if hash.None? {
      return 1;
    }
    var updated := files.ShadowSetHash(t.name, hash.value, io);
    if updated != 0 {
      return 1;
    }
    return 0;
  }

  /** A caller other than root only ever changes an entry with its own uid, whose old password it gave. */
  lemma OnlyOwnPassword(crypt: Crypt, passwd: Option<string>, shadow: Option<string>, ruid: nat, arg: string, typed: Typed)
    requires MayChange(crypt, passwd, shadow, ruid, arg, typed) && ruid != 0
    ensures var t := Target(passwd, ruid, arg).value;
            && t.uid == ruid && (arg != "" ==> t.name == arg)
            && StoredOf(shadow, t, t.name).Some? && !Locked(StoredOf(shadow, t, t.name).value)
            && Verify(crypt, StoredOf(shadow, t, t.name).value, typed.current.value)
  {
    FindInIsWanted(Chunks(Get(passwd, "")), Some(arg), None);
  }

  /**
    After a successful change of a shadowed account, a login for it accepts exactly the
    passwords that hash to the new value, the new password included; the field every
    other name is checked against is what it was.
   */
  lemma ChangedPasswordLogin(crypt: Crypt, f: LoginFiles, user: string, chosen: string, raw: seq<nat>, q: string,
                             other: string)
    requires CryptLaw(crypt) && PasswordHash(crypt, chosen, raw, HASH_MAX).Some?
    requires f.shadow.Some? && WellFormed(f.shadow.value)
    requires Safe(user) && |user| < NAME_MAX
    requires Fits(Chunks(f.shadow.value), user, PasswordHash(crypt, chosen, raw, HASH_MAX).value)
    requires ByName(Get(f.passwd, ""), user).Some? && InShadow(ByName(Get(f.passwd, ""), user).value)
    requires !RootDenied(f, user)
    ensures var hash := PasswordHash(crypt, chosen, raw, HASH_MAX).value;
            var after := f.(shadow := Some(SetHash(f.shadow.value, user, hash)));
            && (AuthUser(crypt, after, user, q).Some? <==> crypt(q, hash) == Some(hash))
            && AuthUser(crypt, after, user, chosen).Some?
            && (other != user ==> ShadowHashOf(after.shadow, other) == ShadowHashOf(f.shadow, other))
  {
    hide ByName, SetHash, Fits, WellFormed, Lookup;
    var hash := PasswordHash(crypt, chosen, raw, HASH_MAX).value;
    PasswordHashStores(crypt, chosen, raw);
    SetThenLookup(f.shadow.value, user, hash, other, HASH_MAX);
  }
}
