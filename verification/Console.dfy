/**
  The console service: autologin, the login loop, and the shells it starts. What it
  does is recorded as a log, and the log is what the safety statements speak of.
 */
module Console {
  import opened Text
  import opened Fields
  import opened Shadow
  import opened Accounts
  import opened Login
  import opened Firstboot

  /** How one `start_session` goes: the fork fails, or the wait for the shell reports an end. */
  datatype Outcome = ForkFails | WaitFails | Signaled(signal: nat) | Exited(code: nat)

  /** One pass of the login loop: the files at that moment, what was typed, how its shells end. */
  datatype Attempt = Attempt(files: LoginFiles, typed: string, password: string, shells: seq<Outcome>)

  datatype Event =
    | Granted(files: LoginFiles, user: string, password: string, account: Account)
    | Refused(files: LoginFiles, user: string, password: string)
    | ShellStarted(account: Account)
    | ShellEnded(how: Outcome)
    | ForkFailed

  function ClearedBy(e: Event): bool {
    e == ForkFailed || e == ShellEnded(Exited(0))
  }

  /** The account logged in after these events. */
  function Current(log: seq<Event>): Option<Account> {
    if log == [] then None
    else
      var e := log[|log| - 1];
      if e.Granted? then Some(e.account)
      else if ClearedBy(e) then None
      else Current(log[..|log| - 1])
  }

  /** A shell that ended by itself is followed by another one of the same login. */
  predicate Resuming(log: seq<Event>) {
    log != [] && (log[|log| - 1].Granted? || (log[|log| - 1].ShellEnded? && !ClearedBy(log[|log| - 1])))
  }

  /** Event by event: who is let in, and which shell may start or end when. */
  predicate SafeLog(crypt: Crypt, log: seq<Event>) {
    log == [] ||
    var before := log[..|log| - 1];
    && SafeLog(crypt, before)
    && match log[|log| - 1]
       case Granted(f, user, password, a) => Current(before) == None && AuthUser(crypt, f, user, password) == Some(a)
       case Refused(f, user, password) => Current(before) == None && AuthUser(crypt, f, user, password) == None
       case ShellStarted(a) => Current(before) == Some(a) && Resuming(before)
       case ShellEnded(_) => before != [] && before[|before| - 1].ShellStarted?
       case ForkFailed => Current(before).Some? && Resuming(before)
  }

  // ---- The code ----

  /** `strip_ws`: cut at the first blank. */
  function StripWs(s: string): string {
    if s == "" || s[0] == '\n' || s[0] == '\r' || s[0] == ' ' || s[0] == '\t' then ""
    else [s[0]] + StripWs(s[1..])
  }

  method Strip(s: string) returns (t: string)
    ensures t == StripWs(s)
  {
    var p := 0;
    assert s[..0] == "" && s[0..] == s;
    while p < |s|
      invariant 0 <= p <= |s|
      invariant StripWs(s) == s[..p] + StripWs(s[p..])
    {
      assert s[p..][1..] == s[p + 1..];
      if s[p] == '\n' || s[p] == '\r' || s[p] == ' ' || s[p] == '\t' {
        assert s[..p] + "" == s[..p];
        return s[..p];
      }
      assert s[..p] + [s[p]] == s[..p + 1];
      p := p + 1;
    }
    assert s[..p] + "" == s;
    return s;
  }

  lemma Append(crypt: Crypt, log: seq<Event>, e: Event)
    ensures (log + [e])[..|log|] == log && (log + [e])[|log|] == e
  {
  }

  /** What one shell adds to the log. */
  function ShellEvent(a: Account, how: Outcome): seq<Event> {
    if how == ForkFails then [ForkFailed] else [ShellStarted(a), ShellEnded(how)]
  }

  /** `start_session`: 1 after a logout, 0 when the same user gets a new shell, -1 when the fork failed. */
  method StartSession(crypt: Crypt, a: Account, how: Outcome, log: seq<Event>) returns (r: int, after: seq<Event>)
    requires SafeLog(crypt, log) && Current(log) == Some(a) && Resuming(log)
    ensures SafeLog(crypt, after)
    ensures r == if how == ForkFails then -1 else if how == Exited(0) then 1 else 0
    ensures r == 0 ==> Current(after) == Some(a) && Resuming(after)
    ensures r != 0 ==> Current(after) == None
    ensures after == log + ShellEvent(a, how)
  {
    if how == ForkFails {
      Append(crypt, log, ForkFailed);
      return -1, log + [ForkFailed];
    }
    Append(crypt, log, ShellStarted(a));
    var started := log + [ShellStarted(a)];
    Append(crypt, started, ShellEnded(how));
    after := started + [ShellEnded(how)];
    if how == Exited(0) {
      r := 1;
    } else {
      r := 0;
    }
  }

  // ---- The events of a run, from what the users type and how the shells end ----

  /** Shells for one login: a new one until a logout or a failed fork. */
  function ShellEvents(a: Account, shells: seq<Outcome>): seq<Event> {
    if shells == [] then []
    else
      ShellEvent(a, shells[0]) +
      if shells[0] == ForkFails || shells[0] == Exited(0) then [] else ShellEvents(a, shells[1..])
  }

  /** One of these shells brings the login prompt back. */
  predicate EndsLogin(shells: seq<Outcome>) {
    shells != [] && (shells[0] == ForkFails || shells[0] == Exited(0) || EndsLogin(shells[1..]))
  }

  function LoginEvents(crypt: Crypt, f: LoginFiles, user: string, password: string, shells: seq<Outcome>): seq<Event> {
    match AuthUser(crypt, f, user, password)
    case None => [Refused(f, user, password)]
    case Some(a) => [Granted(f, user, password, a)] + ShellEvents(a, shells)
  }

  /** The prompt comes back after this login. */
  predicate ComesBack(crypt: Crypt, f: LoginFiles, user: string, password: string, shells: seq<Outcome>) {
    AuthUser(crypt, f, user, password) == None || EndsLogin(shells)
  }

  /** The endless loop over what is typed; an empty name is asked for again. */
  function PromptEvents(crypt: Crypt, attempts: seq<Attempt>): seq<Event> {
    if attempts == [] then []
    else
      var t := attempts[0];
      var user := StripWs(t.typed);
      if user == "" then PromptEvents(crypt, attempts[1..])
      else
        LoginEvents(crypt, t.files, user, t.password, t.shells) +
        if ComesBack(crypt, t.files, user, t.password, t.shells) then PromptEvents(crypt, attempts[1..]) else []
  }

  /** The name in the autologin file, "" when there is none. */
  function AutoUser(autologin: Option<string>): string {
    if autologin.None? || autologin.value == "" then ""
    else StripWs(autologin.value[..ChunkLen(autologin.value, NAME_MAX - 1)])
  }

  function ConsoleEvents(crypt: Crypt, profile: Profile, autologin: Option<string>, auto: Attempt, attempts: seq<Attempt>)
    : seq<Event>
  {
    var user := AutoUser(autologin);
    if profile == Appliance then []
    else if user == "" then PromptEvents(crypt, attempts)
    else
      LoginEvents(crypt, auto.files, user, "", auto.shells) +
      if ComesBack(crypt, auto.files, user, "", auto.shells) then PromptEvents(crypt, attempts) else []
  }

  /** `run_user_sessions`: shells for one login until logout or fork failure; 1 when the script of outcomes ends first. */
  method RunUserSessions(crypt: Crypt, a: Account, shells: seq<Outcome>, log: seq<Event>) returns (r: int, after: seq<Event>)
    requires SafeLog(crypt, log) && Current(log) == Some(a) && Resuming(log)
    ensures SafeLog(crypt, after) && after == log + ShellEvents(a, shells)
    ensures r == -1 || r == 0 || r == 1
    ensures r != 1 ==> Current(after) == None
    ensures r != 1 <==> EndsLogin(shells)
    ensures r == -1 ==> after != [] && after[|after| - 1] == ForkFailed
    ensures r == 0 ==> after != [] && after[|after| - 1] == ShellEnded(Exited(0))
  {
    hide SafeLog, Current, Resuming, ShellEvents, EndsLogin;
    after := log;
    var k := 0;
    assert shells[0..] == shells;
    while k < |shells|
      invariant 0 <= k <= |shells|
      invariant SafeLog(crypt, after) && Current(after) == Some(a) && Resuming(after)
      invariant after + ShellEvents(a, shells[k..]) == log + ShellEvents(a, shells)
      invariant EndsLogin(shells[k..]) <==> EndsLogin(shells)
    {
      ghost var before := after;
      var s;
      s, after := StartSession(crypt, a, shells[k], after);
      NextShell(a, shells, k, before);
      if s < 0 {
        return -1, after;
      }
      if s > 0 {
        return 0, after;
      }
      k := k + 1;
    }
    NoShell(a, shells);
    r := 1;
  }

  lemma NextShell(a: Account, shells: seq<Outcome>, k: nat, log: seq<Event>)
    requires k < |shells|
    ensures var ends := shells[k] == ForkFails || shells[k] == Exited(0);
            && log + ShellEvents(a, shells[k..]) ==
               log + ShellEvent(a, shells[k]) + (if ends then [] else ShellEvents(a, shells[k + 1..]))
            && (ends ==> log + ShellEvents(a, shells[k..]) == log + ShellEvent(a, shells[k]))
            && (EndsLogin(shells[k..]) <==> ends || EndsLogin(shells[k + 1..]))
  {
    assert shells[k..][1..] == shells[k + 1..];
    hide ShellEvent;
  }

  lemma NoShell(a: Account, shells: seq<Outcome>)
    ensures shells[|shells|..] == [] && !EndsLogin([]) && forall log: seq<Event> :: log + ShellEvents(a, []) == log
  {
  }

  lemma RefusalKeeps(crypt: Crypt, f: LoginFiles, user: string, password: string, log: seq<Event>)
    requires SafeLog(crypt, log) && Current(log) == None && AuthUser(crypt, f, user, password) == None
    ensures var now := log + [Refused(f, user, password)]; SafeLog(crypt, now) && Current(now) == None
  {
    Append(crypt, log, Refused(f, user, password));
    hide AuthUser;
  }

  lemma GrantStarts(crypt: Crypt, f: LoginFiles, user: string, password: string, a: Account, log: seq<Event>)
    requires SafeLog(crypt, log) && Current(log) == None && AuthUser(crypt, f, user, password) == Some(a)
    ensures var now := log + [Granted(f, user, password, a)];
            SafeLog(crypt, now) && Current(now) == Some(a) && Resuming(now)
  {
    Append(crypt, log, Granted(f, user, password, a));
    hide AuthUser;
  }

  /** One login: authenticate, and on success run its shells. `more` is false when the run ends inside a session. */
  method LoginOnce(crypt: Crypt, f: LoginFiles, user: string, password: string, shells: seq<Outcome>, log: seq<Event>)
    returns (more: bool, after: seq<Event>)
    requires SafeLog(crypt, log) && Current(log) == None
    ensures SafeLog(crypt, after) && after == log + LoginEvents(crypt, f, user, password, shells)
    ensures more <==> ComesBack(crypt, f, user, password, shells)
    ensures more ==> Current(after) == None
  {
    hide SafeLog, Current, Resuming, AuthUser;
    var a := AuthUser(crypt, f, user, password);
    match a {
      case None =>
        RefusalKeeps(crypt, f, user, password, log);
        after := log + [Refused(f, user, password)];
        more := true;
      case Some(account) =>
        var e := Granted(f, user, password, account);
        GrantStarts(crypt, f, user, password, account, log);
        var r;
        r, after := RunUserSessions(crypt, account, shells, log + [e]);
        more := r != 1;
    }
  }

  lemma EmptyLog(crypt: Crypt)
    ensures SafeLog(crypt, []) && Current([]) == None
  {
  }

  /** The console's `main`, up to the end of the given attempts. */
  method ConsoleMain(crypt: Crypt, profile: Profile, autologin: Option<string>, auto: Attempt, attempts: seq<Attempt>)
    returns (log: seq<Event>)
    ensures SafeLog(crypt, log) && log == ConsoleEvents(crypt, profile, autologin, auto, attempts)
    ensures if profile == Appliance then log == [] else AllAnswered(crypt, AllAsked(autologin, auto, attempts), log)
  {
    ConsoleAnswers(crypt, profile, autologin, auto, attempts);
    hide AllAnswered, AllAsked;
    hide SafeLog, Current, Resuming, AuthUser, LoginEvents, ComesBack, StripWs, ChunkLen;
    log := [];
    EmptyLog(crypt);
    if profile == Appliance {
      return;
    }
    var more := true;
    if autologin.Some? {
      var user := "";
      if autologin.value != "" {
        user := Strip(autologin.value[..ChunkLen(autologin.value, NAME_MAX - 1)]);
      }
      if user != "" {
        more, log := LoginOnce(crypt, auto.files, user, "", auto.shells, log);
      }
    }
    var k := 0;
    assert attempts[0..] == attempts;
    while more && k < |attempts|
      invariant 0 <= k <= |attempts|
      invariant SafeLog(crypt, log) && (more ==> Current(log) == None)
      invariant log + (if more then PromptEvents(crypt, attempts[k..]) else []) ==
                ConsoleEvents(crypt, profile, autologin, auto, attempts)
      decreases |attempts| - k
    {
      var t := attempts[k];
      assert attempts[k..][1..] == attempts[k + 1..];
      k := k + 1;
      var user := Strip(t.typed);
      if user == "" {
        continue;
      }
      more, log := LoginOnce(crypt, t.files, user, t.password, t.shells, log);
    }
  }

  // ---- What every attempt comes to ----

  /** A login that is asked for, by autologin or at the prompt. */
  datatype Ask = Ask(files: LoginFiles, user: string, password: string, shells: seq<Outcome>)

  /** The attempts with a name typed. */
  function Asked(attempts: seq<Attempt>): seq<Ask> {
    if attempts == [] then []
    else
      var t := attempts[0];
      (if StripWs(t.typed) == "" then [] else [Ask(t.files, StripWs(t.typed), t.password, t.shells)]) +
      Asked(attempts[1..])
  }

  /** All logins of a run: the autologin with no password, then what is typed. */
  function AllAsked(autologin: Option<string>, auto: Attempt, attempts: seq<Attempt>): seq<Ask> {
    (if AutoUser(autologin) == "" then [] else [Ask(auto.files, AutoUser(autologin), "", auto.shells)]) + Asked(attempts)
  }

  /** The logins that were answered. */
  function Logins(log: seq<Event>): seq<Event> {
    if log == [] then []
    else (if log[0].Granted? || log[0].Refused? then [log[0]] else []) + Logins(log[1..])
  }

  /** How the sessions ended that were started, or failed to. */
  function Outcomes(log: seq<Event>): seq<Outcome> {
    if log == [] then []
    else
      (match log[0] case ShellEnded(how) => [how] case ForkFailed => [ForkFails] case _ => []) + Outcomes(log[1..])
  }

  function Answer(crypt: Crypt, t: Ask): Event {
    match AuthUser(crypt, t.files, t.user, t.password)
    case None => Refused(t.files, t.user, t.password)
    case Some(a) => Granted(t.files, t.user, t.password, a)
  }

  /** Of these ends, those up to the first logout or failed fork. */
  function Session(shells: seq<Outcome>): seq<Outcome> {
    if shells == [] then []
    else [shells[0]] + if shells[0] in {ForkFails, Exited(0)} then [] else Session(shells[1..])
  }

  /** The ends of the sessions of those who get in. */
  function Sessions(crypt: Crypt, asked: seq<Ask>): seq<Outcome> {
    if asked == [] then []
    else
      (if AuthUser(crypt, asked[0].files, asked[0].user, asked[0].password).Some? then Session(asked[0].shells) else []) +
      Sessions(crypt, asked[1..])
  }

  /**
    Login after login the log has the answer, granted exactly when the name and password are accepted; whoever gets in
    has shells until a logout or a failed fork; and only a session that goes on keeps a login waiting.
   */
  predicate AllAnswered(crypt: Crypt, asked: seq<Ask>, log: seq<Event>) {
    var logins := Logins(log);
    && |logins| <= |asked|
    && (forall i :: 0 <= i < |logins| ==> logins[i] == Answer(crypt, asked[i]))
    && Outcomes(log) == Sessions(crypt, asked[..|logins|])
    && (|logins| < |asked| ==> Current(log).Some?)
    && (log != [] && log[|log| - 1].Granted? ==> logins != [] && asked[|logins| - 1].shells == [])
  }

  lemma LoginsHead(a: seq<Event>)
    requires a != []
    ensures Logins(a) == Logins([a[0]]) + Logins(a[1..])
  {
    assert [a[0]][1..] == [];
  }

  lemma {:induction false} LoginsJoin(a: seq<Event>, b: seq<Event>)
    ensures Logins(a + b) == Logins(a) + Logins(b)
  {
    if a == [] {
      assert a + b == b;
    } else {
      assert (a + b)[1..] == a[1..] + b && (a + b)[0] == a[0];
      LoginsJoin(a[1..], b);
      var head, rest := Logins([a[0]]), Logins(a[1..]);
      LoginsHead(a);
      LoginsHead(a + b);
      hide Logins;
      assert head + (rest + Logins(b)) == head + rest + Logins(b);
    }
  }

  lemma OutcomesHead(a: seq<Event>)
    requires a != []
    ensures Outcomes(a) == Outcomes([a[0]]) + Outcomes(a[1..])
  {
    assert [a[0]][1..] == [];
  }

  lemma {:induction false} OutcomesJoin(a: seq<Event>, b: seq<Event>)
    ensures Outcomes(a + b) == Outcomes(a) + Outcomes(b)
  {
    if a == [] {
      assert a + b == b;
    } else {
      assert (a + b)[1..] == a[1..] + b && (a + b)[0] == a[0];
      OutcomesJoin(a[1..], b);
      var head, rest := Outcomes([a[0]]), Outcomes(a[1..]);
      OutcomesHead(a);
      OutcomesHead(a + b);
      hide Outcomes;
      assert head + (rest + Outcomes(b)) == head + rest + Outcomes(b);
    }
  }

  lemma LogJoin(a: seq<Event>, b: seq<Event>)
    ensures Logins(a + b) == Logins(a) + Logins(b) && Outcomes(a + b) == Outcomes(a) + Outcomes(b)
  {
    LoginsJoin(a, b);
    OutcomesJoin(a, b);
  }

  lemma OneShell(a: Account, how: Outcome)
    ensures Logins(ShellEvent(a, how)) == [] && Outcomes(ShellEvent(a, how)) == [how]
  {
    OneEvent(if how == ForkFails then ForkFailed else ShellEnded(how));
    if how != ForkFails {
      OneEvent(ShellStarted(a));
      LogJoin([ShellStarted(a)], [ShellEnded(how)]);
      assert ShellEvent(a, how) == [ShellStarted(a)] + [ShellEnded(how)];
    }
  }

  lemma OneEvent(e: Event)
    ensures Logins([e]) == (if e.Granted? || e.Refused? then [e] else [])
    ensures Outcomes([e]) == (match e case ShellEnded(how) => [how] case ForkFailed => [ForkFails] case _ => [])
  {
    assert [e][1..] == [];
  }

  lemma {:induction false} ShellsOnly(a: Account, shells: seq<Outcome>)
    ensures Logins(ShellEvents(a, shells)) == [] && Outcomes(ShellEvents(a, shells)) == Session(shells)
    ensures shells != [] ==> ShellEvents(a, shells) != [] && !ShellEvents(a, shells)[|ShellEvents(a, shells)| - 1].Granted?
  {
    if shells != [] {
      var first := ShellEvent(a, shells[0]);
      OneShell(a, shells[0]);
      if !(shells[0] in {ForkFails, Exited(0)}) {
        ShellsOnly(a, shells[1..]);
        LogJoin(first, ShellEvents(a, shells[1..]));
      } else {
        assert first + [] == first;
      }
    }
  }

  /** Behind these shells the account is still logged in, or nobody is. */
  lemma {:induction false} ShellsLeave(a: Account, shells: seq<Outcome>, log: seq<Event>)
    requires Current(log) == Some(a)
    ensures Current(log + ShellEvents(a, shells)) == if EndsLogin(shells) then None else Some(a)
  {
    hide Current, ShellEvent;
    if shells == [] {
      assert log + [] == log;
    } else {
      var first := ShellEvent(a, shells[0]);
      OneShellLeaves(a, shells[0], log);
      if shells[0] in {ForkFails, Exited(0)} {
        assert log + (first + []) == log + first;
      } else {
        ShellsLeave(a, shells[1..], log + first);
        assert log + (first + ShellEvents(a, shells[1..])) == (log + first) + ShellEvents(a, shells[1..]);
      }
    }
  }

  lemma OneShellLeaves(a: Account, how: Outcome, log: seq<Event>)
    requires Current(log) == Some(a)
    ensures Current(log + ShellEvent(a, how)) == if how in {ForkFails, Exited(0)} then None else Some(a)
  {
    if how == ForkFails {
      assert (log + [ForkFailed])[..|log|] == log;
    } else {
      var started := log + [ShellStarted(a)];
      assert started[..|log|] == log && log + ShellEvent(a, how) == started + [ShellEnded(how)];
      assert (started + [ShellEnded(how)])[..|started|] == started;
    }
  }

  /** One login, answered. */
  lemma LoginAnswered(crypt: Crypt, t: Ask, log: seq<Event>)
    ensures var es := LoginEvents(crypt, t.files, t.user, t.password, t.shells);
            && es != [] && Logins(es) == [es[0]] && Outcomes(es) == Sessions(crypt, [t])
            && es[0] == Answer(crypt, t)
            && (es[|es| - 1].Granted? ==> t.shells == [])
            && (Current(log) == None ==>
                  (Current(log + es) == None <==> ComesBack(crypt, t.files, t.user, t.password, t.shells)))
  {
    hide AuthUser, Current;
    assert [t][1..] == [];
    match AuthUser(crypt, t.files, t.user, t.password)
    case None =>
      RefusedLeaves(t, log);
    case Some(a) =>
      var granted := [Granted(t.files, t.user, t.password, a)];
      assert granted[1..] == [];
      ShellsOnly(a, t.shells);
      LogJoin(granted, ShellEvents(a, t.shells));
      GrantedLeaves(t, a, log);
      ShellsLeave(a, t.shells, log + granted);
      assert log + (granted + ShellEvents(a, t.shells)) == (log + granted) + ShellEvents(a, t.shells);
  }

  lemma RefusedLeaves(t: Ask, log: seq<Event>)
    ensures Current(log + [Refused(t.files, t.user, t.password)]) == Current(log)
  {
    assert (log + [Refused(t.files, t.user, t.password)])[..|log|] == log;
  }

  lemma GrantedLeaves(t: Ask, a: Account, log: seq<Event>)
    ensures Current(log + [Granted(t.files, t.user, t.password, a)]) == Some(a)
  {
  }

  lemma {:induction false} CurrentJoin(a: seq<Event>, b: seq<Event>)
    requires Current(b).Some?
    ensures Current(a + b) == Current(b)
  {
    var n := |b| - 1;
    assert (a + b)[..|a + b| - 1] == a + b[..n];
    if !b[n].Granted? {
      CurrentJoin(a, b[..n]);
    }
  }

  /** A login is answered and the prompt comes back for the rest. */
  lemma MoreAnswered(crypt: Crypt, t: Ask, asked: seq<Ask>, rest: seq<Event>)
    requires AllAnswered(crypt, asked, rest)
    ensures AllAnswered(crypt, [t] + asked, LoginEvents(crypt, t.files, t.user, t.password, t.shells) + rest)
  {
    hide Current, LoginEvents, Answer, Sessions;
    var es := LoginEvents(crypt, t.files, t.user, t.password, t.shells);
    LoginAnswered(crypt, t, []);
    LogJoin(es, rest);
    if Current(rest).Some? {
      CurrentJoin(es, rest);
    }
    hide Logins, Outcomes;
    var log, logins := es + rest, Logins(rest);
    SessionsCons(crypt, t, asked, |logins|);
    assert Logins(log) == [es[0]] + logins;
    assert forall i :: 1 <= i < |logins| + 1 ==> Logins(log)[i] == logins[i - 1] && ([t] + asked)[i] == asked[i - 1];
    if rest == [] {
      NoLogins();
      assert log == es;
    } else {
      assert log[|log| - 1] == rest[|rest| - 1];
    }
  }

  lemma SessionsCons(crypt: Crypt, t: Ask, asked: seq<Ask>, n: nat)
    requires n <= |asked|
    ensures Sessions(crypt, ([t] + asked)[..n + 1]) == Sessions(crypt, [t]) + Sessions(crypt, asked[..n])
  {
    hide AuthUser;
    assert ([t] + asked)[..n + 1] == [t] + asked[..n];
    assert ([t] + asked[..n])[1..] == asked[..n] && [t][1..] == [];
  }

  /** A login is answered and its last session goes on. */
  lemma LastAnswered(crypt: Crypt, t: Ask, asked: seq<Ask>)
    requires !ComesBack(crypt, t.files, t.user, t.password, t.shells)
    ensures AllAnswered(crypt, [t] + asked, LoginEvents(crypt, t.files, t.user, t.password, t.shells))
  {
    NoLogins();
    hide AuthUser, Current, LoginEvents, ComesBack;
    LoginAnswered(crypt, t, []);
    var es := LoginEvents(crypt, t.files, t.user, t.password, t.shells);
    assert [] + es == es && ([t] + asked)[..1] == [t];
  }

  lemma NoLogins()
    ensures Logins([]) == [] && Outcomes([]) == [] && Current([]) == None
  {
  }

  lemma {:induction false} PromptAnswered(crypt: Crypt, attempts: seq<Attempt>)
    ensures AllAnswered(crypt, Asked(attempts), PromptEvents(crypt, attempts))
  {
    hide AllAnswered, LoginEvents, ComesBack, StripWs;
    if attempts == [] {
      NothingAnswered(crypt);
    } else {
      var t := attempts[0];
      PromptAnswered(crypt, attempts[1..]);
      var ask := Ask(t.files, StripWs(t.typed), t.password, t.shells);
      var es := LoginEvents(crypt, t.files, StripWs(t.typed), t.password, t.shells);
      if StripWs(t.typed) == "" {
        assert [] + Asked(attempts[1..]) == Asked(attempts[1..]);
      } else if ComesBack(crypt, t.files, StripWs(t.typed), t.password, t.shells) {
        MoreAnswered(crypt, ask, Asked(attempts[1..]), PromptEvents(crypt, attempts[1..]));
      } else {
        LastAnswered(crypt, ask, Asked(attempts[1..]));
        assert es + [] == es;
      }
    }
  }

  lemma NothingAnswered(crypt: Crypt)
    ensures AllAnswered(crypt, [], [])
  {
  }

  /** The whole run: every login that is asked for is answered as it must be, and an appliance has none. */
  lemma ConsoleAnswers(crypt: Crypt, profile: Profile, autologin: Option<string>, auto: Attempt, attempts: seq<Attempt>)
    ensures var log := ConsoleEvents(crypt, profile, autologin, auto, attempts);
            if profile == Appliance then log == [] else AllAnswered(crypt, AllAsked(autologin, auto, attempts), log)
  {
    hide AllAnswered, LoginEvents, ComesBack, PromptEvents, Asked, AutoUser;
    var user := AutoUser(autologin);
    PromptAnswered(crypt, attempts);
    assert [] + Asked(attempts) == Asked(attempts);
    if user != "" {
      var ask := Ask(auto.files, user, "", auto.shells);
      var es := LoginEvents(crypt, auto.files, user, "", auto.shells);
      if ComesBack(crypt, auto.files, user, "", auto.shells) {
        MoreAnswered(crypt, ask, Asked(attempts), PromptEvents(crypt, attempts));
      } else {
        LastAnswered(crypt, ask, Asked(attempts));
        assert es + [] == es;
      }
    }
  }

  /** In a safe log the event after a grant is a shell of that account, or the fork that failed. */
  lemma GrantGetsShell(crypt: Crypt, log: seq<Event>, i: nat)
    requires SafeLog(crypt, log) && i + 1 < |log| && log[i].Granted?
    ensures log[i + 1] == ShellStarted(log[i].account) || log[i + 1] == ForkFailed
  {
    hide AuthUser;
    SafePrefix(crypt, log, i + 2);
    assert log[..i + 2][..i + 1] == log[..i + 1] && log[..i + 2][i + 1] == log[i + 1] && log[..i + 1][i] == log[i];
  }

  predicate NoBlanks(s: string) {
    forall c :: c in s ==> c != '\n' && c != '\r' && c != ' ' && c != '\t'
  }

  /** The name typed on a line, or written in the autologin file, is what comes before the first blank. */
  lemma {:induction false} NameRead(name: string, rest: string)
    requires NoBlanks(name) && (rest == "" || rest[0] in {'\n', '\r', ' ', '\t'})
    ensures StripWs(name + rest) == name
  {
    if name == "" {
      assert name + rest == rest;
    } else {
      assert name[0] in name && forall c :: c in name[1..] ==> c in name;
      assert (name + rest)[1..] == name[1..] + rest;
      NameRead(name[1..], rest);
    }
  }

  lemma AutologinRead(name: string, rest: string)
    requires NoBlanks(name) && name != "" && |name| < NAME_MAX
    ensures AutoUser(Some(name + "\n" + rest)) == name && AutoUser(Some(name)) == name && AutoUser(None) == ""
  {
    var text := name + "\n" + rest;
    var n := ChunkLen(text, NAME_MAX - 1);
    assert forall i :: 0 <= i < |name| ==> text[i] == name[i] && name[i] in name;
    assert text[|name|] == '\n';
    assert n >= |name|;
    assert text[..n] == name + text[|name|..n];
    NameRead(name, text[|name|..n]);
    assert name + "" == name;
    NameRead(name, "");
    WholeChunk(name, NAME_MAX - 1);
  }

  lemma {:induction false} WholeChunk(name: string, room: nat)
    requires name != "" && |name| <= room && NoBlanks(name)
    ensures name[..ChunkLen(name, room)] == name
  {
    assert forall i :: 0 <= i < |name| ==> name[i] in name;
  }

  // ---- What a safe log means ----

  lemma {:induction false} SafePrefix(crypt: Crypt, log: seq<Event>, n: nat)
    requires SafeLog(crypt, log) && n <= |log|
    ensures SafeLog(crypt, log[..n])
  {
    if n == |log| {
      assert log[..n] == log;
    } else {
      SafePrefix(crypt, log[..|log| - 1], n);
      assert log[..|log| - 1][..n] == log[..n];
    }
  }

  /** The account logged in comes from the last grant, and nothing since has ended that login. */
  lemma {:induction false} CurrentFromGrant(crypt: Crypt, log: seq<Event>) returns (j: nat)
    requires SafeLog(crypt, log) && Current(log).Some?
    ensures j < |log| && log[j].Granted? && log[j].account == Current(log).value
    ensures AuthUser(crypt, log[j].files, log[j].user, log[j].password) == Current(log)
    ensures forall k :: j < k < |log| ==> !ClearedBy(log[k])
  {
    hide AuthUser;
    var n := |log| - 1;
    if log[n].Granted? {
      j := n;
    } else {
      j := CurrentFromGrant(crypt, log[..n]);
      assert forall k | 0 <= k < n :: log[..n][k] == log[k];
    }
  }

  /**
    Every shell runs as an account that passed authentication, with no logout and no
    fork failure since; root got in only without the deny file, and nobody with a locked field.
   */
  lemma EveryShellAuthenticated(crypt: Crypt, log: seq<Event>, i: nat)
    requires SafeLog(crypt, log) && i < |log| && log[i].ShellStarted?
    ensures exists j :: 0 <= j < i && log[j].Granted? && log[j].account == log[i].account &&
              AuthUser(crypt, log[j].files, log[j].user, log[j].password) == Some(log[i].account) &&
              !(log[i].account.name == "root" && log[j].files.denyRoot) &&
              (forall k :: j < k < i ==> !ClearedBy(log[k])) &&
              StoredOf(log[j].files.shadow, log[i].account, log[j].user).Some? &&
              !Locked(StoredOf(log[j].files.shadow, log[i].account, log[j].user).value)
  {
    hide AuthUser, StoredOf, Locked;
    SafePrefix(crypt, log, i + 1);
    assert log[..i + 1][..i] == log[..i];
    SafePrefix(crypt, log, i);
    var j := CurrentFromGrant(crypt, log[..i]);
    assert forall k | 0 <= k < i :: log[..i][k] == log[k];
    NoLockedLogin(crypt, log[j].files, log[j].user, log[j].password);
  }

  /** After a shell that did not exit with 0, the next event is a shell of the same account or a failed fork. */
  lemma AbnormalEndResumes(crypt: Crypt, log: seq<Event>, i: nat)
    requires SafeLog(crypt, log) && 1 <= i && i + 1 < |log|
    requires log[i].ShellEnded? && log[i].how != Exited(0)
    ensures log[i - 1].ShellStarted? && (log[i + 1] == ForkFailed || log[i + 1] == log[i - 1])
  {
    hide AuthUser;
    SafePrefix(crypt, log, i + 2);
    SafePrefix(crypt, log, i + 1);
    SafePrefix(crypt, log, i);
    assert log[..i + 2][..i + 1] == log[..i + 1] && log[..i + 1][..i] == log[..i] && log[..i][..i - 1] == log[..i - 1];
    assert log[..i + 2][i + 1] == log[i + 1] && log[..i + 1][i] == log[i] && log[..i][i - 1] == log[i - 1];
    assert Current(log[..i + 1]) == Current(log[..i]) == Current(log[..i - 1]) == Some(log[i - 1].account);
  }

  /** After a voluntary logout nobody is logged in: the next event is another login, granted or refused. */
  lemma LogoutForcesLogin(crypt: Crypt, log: seq<Event>, i: nat)
    requires SafeLog(crypt, log) && i + 1 < |log| && ClearedBy(log[i])
    ensures log[i + 1].Granted? || log[i + 1].Refused?
  {
    hide AuthUser;
    SafePrefix(crypt, log, i + 2);
    assert log[..i + 2][..i + 1] == log[..i + 1];
    assert log[..i + 2][i + 1] == log[i + 1] && log[..i + 1][i] == log[i];
  }
}
