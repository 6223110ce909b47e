/** The group file: `ir0_user_in_group`, `ir0_group_list` and adduser's `ensure_group_member`. */
module Groups {
  import opened Text
  import opened Fields
  import opened Shadow

  const MEMBERS_MAX: nat := 256
  const ID_MAX: nat := 32
  const GROUP_PASSWORD_MAX: nat := 8

  /** Length of the token at the start of `s`. */
  function TokenLen(s: string): (n: nat)
    ensures n <= |s| && ',' !in s[..n] && (n == |s| || s[n] == ',')
  {
    if s == "" || s[0] == ',' then 0 else 1 + TokenLen(s[1..])
  }

  /** The tokens `strtok_r(members, ",", &save)` returns: empty ones are skipped. */
  function Tokens(s: string): seq<string>
    decreases |s|
  {
    if s == "" then []
    else if s[0] == ',' then Tokens(s[1..])
    else [s[..TokenLen(s)]] + Tokens(s[TokenLen(s)..])
  }

  /** A line that counts for `user`: it has a member list and the user is in it. */
  predicate Lists(line: string, user: string) {
    match Field(line, 3, MEMBERS_MAX)
    case None => false
    case Some(members) => user in Tokens(members)
  }

  predicate InGroup(ls: seq<string>, user: string, group: string) {
    ls != [] && ((Named(ls[0], group) && Lists(ls[0], user)) || InGroup(ls[1..], user, group))
  }

  // ---- The readers ----

  /** `strtok_r` and `strcmp` over a member list. */
  method HasToken(members: string, user: string) returns (found: bool)
    ensures found <==> user in Tokens(members)
  {
    var rest := members;
    while rest != ""
      invariant user in Tokens(rest) <==> user in Tokens(members)
      decreases |rest|
    {
      if rest[0] == ',' {
        rest := rest[1..];
      } else {
        var n := TokenLen(rest);
        if rest[..n] == user {
          return true;
        }
        rest := rest[n..];
      }
    }
    return false;
  }

  method UserInGroup(file: Option<string>, user: string, group: string) returns (found: bool)
    requires file.Some? ==> '\0' !in file.value
    ensures found <==> InGroup(Chunks(Get(file, "")), user, group)
  {
    hide Named;
    found := false;
    if file.None? {
      return;
    }
    var unread := file.value;
    while !found && unread != ""
      invariant '\0' !in unread
      invariant found || InGroup(Chunks(unread), user, group) <==> InGroup(Chunks(file.value), user, group)
      decreases |unread|, !found
    {
      var line := FirstChunk(unread);
      NulFreeStep(unread);
      unread := AfterChunk(unread);
      var same := IsNamed(line, group);
      if same {
        var members := ReadField(line, 3, MEMBERS_MAX);
        if members.Some? {
          found := HasToken(members.value, user);
        }
      }
    }
  }

  /** The gid a line contributes, if it lists the user. */
  function ListedGid(line: string, user: string): Option<nat> {
    match Field(line, 2, ID_MAX)
    case None => None
    case Some(gid) => if Lists(line, user) then Some(ToId(gid)) else None
  }

  /** The gids of the lines that list the user, in file order. */
  function ListedGids(ls: seq<string>, user: string): seq<nat> {
    if ls == [] then []
    else
      (match ListedGid(ls[0], user) case None => [] case Some(g) => [g]) + ListedGids(ls[1..], user)
  }

  /** The first occurrences of the elements of `xs` that are not in `seen`, in order. */
  function Fresh(seen: seq<nat>, xs: seq<nat>): seq<nat>
    decreases |xs|
  {
    if xs == [] then []
    else if xs[0] in seen then Fresh(seen, xs[1..])
    else [xs[0]] + Fresh(seen + [xs[0]], xs[1..])
  }

  function Take(xs: seq<nat>, n: nat): seq<nat> {
    if |xs| <= n then xs else xs[..n]
  }

  /** The groups of a login: the primary one, then each other one once, at most `max` in all. */
  function GroupsOf(ls: seq<string>, user: string, gid: nat, max: nat): seq<nat> {
    Take([gid] + Fresh([gid], ListedGids(ls, user)), max)
  }

  /** The places from `n` on are as they were. */
  twostate predicate SameFrom(groups: array<nat>, n: int)
    reads groups
  {
    forall k :: n <= k && 0 <= k < groups.Length ==> groups[k] == old(groups[k])
  }

  /** `ir0_group_list` into the caller's array: the groups of the login, and nothing behind them. */
  method GroupList(file: Option<string>, user: string, gid: nat, groups: array<nat>, max: int) returns (n: int)
    requires file.Some? ==> '\0' !in file.value
    requires max <= groups.Length
    modifies groups
    ensures max <= 0 ==> n == -1
    ensures max > 0 ==> 0 < n <= max && groups[..n] == GroupsOf(Chunks(Get(file, "")), user, gid, max)
    ensures SameFrom(groups, n)
  {
    if max <= 0 {
      return -1;
    }
    hide ListedGid;
    groups[0] := gid;
    n := 1;
    assert groups[..n] == [gid];
    if file.None? {
      return;
    }
    var unread := file.value;
    ghost var all := [gid] + Fresh([gid], ListedGids(Chunks(file.value), user));
    while unread != "" && n < max
      invariant '\0' !in unread && 0 < n <= max && SameFrom(groups, n)
      invariant groups[..n] + Fresh(groups[..n], ListedGids(Chunks(unread), user)) == all
      decreases |unread|
    {
      var line := FirstChunk(unread);
      NulFreeStep(unread);
      ListedGidsStep(unread, user);
      unread := AfterChunk(unread);
      var g := LineGid(line, user);
      if g.Some? {
        FreshStep(groups[..n], g.value, ListedGids(Chunks(unread), user));
        n := AddGid(groups, n, g.value);
      }
    }
    if unread == "" {
      assert groups[..n] + [] == all;
    } else {
      assert all[..n] == groups[..n];
    }
  }

  /** The scan for a duplicate and the store of one gid. */
  method AddGid(groups: array<nat>, n: nat, g: nat) returns (m: nat)
    requires n < groups.Length
    modifies groups
    ensures n <= m <= n + 1 && SameFrom(groups, m)
    ensures groups[..m] == if g in old(groups[..n]) then old(groups[..n]) else old(groups[..n]) + [g]
  {
    var dup, i := false, 0;
    while i < n
      invariant 0 <= i <= n
      invariant dup <==> g in groups[..i]
    {
      assert groups[..i + 1] == groups[..i] + [groups[i]];
      if groups[i] == g {
        dup := true;
      }
      i := i + 1;
    }
    if dup {
      return n;
    }
    groups[n] := g;
    assert groups[..n + 1] == old(groups[..n]) + [g];
    return n + 1;
  }

  lemma ListedGidsStep(unread: string, user: string)
    requires unread != ""
    ensures ListedGids(Chunks(unread), user) ==
            match ListedGid(FirstChunk(unread), user)
            case None => ListedGids(Chunks(AfterChunk(unread)), user)
            case Some(g) => [g] + ListedGids(Chunks(AfterChunk(unread)), user)
  {
    hide ListedGid;
    assert Chunks(unread)[1..] == Chunks(AfterChunk(unread));
  }

  lemma FreshStep(before: seq<nat>, g: nat, more: seq<nat>)
    ensures before + Fresh(before, [g] + more) ==
            if g in before then before + Fresh(before, more)
            else (before + [g]) + Fresh(before + [g], more)
  {
    assert ([g] + more)[1..] == more;
  }

  method LineGid(line: string, user: string) returns (g: Option<nat>)
    requires '\0' !in line
    ensures g == ListedGid(line, user)
  {
    var gid := ReadField(line, 2, ID_MAX);
    var members := ReadField(line, 3, MEMBERS_MAX);
    if gid.None? || members.None? {
      return None;
    }
    var found := HasToken(members.value, user);
    g := if found then Some(ToId(gid.value)) else None;
  }

  // ---- What the list means ----

  predicate NoDuplicates(xs: seq<nat>) {
    forall i, j :: 0 <= i < j < |xs| ==> xs[i] != xs[j]
  }

  lemma {:induction false} FreshProperties(seen: seq<nat>, xs: seq<nat>)
    ensures NoDuplicates(Fresh(seen, xs))
    ensures forall g :: g in Fresh(seen, xs) <==> g in xs && g !in seen
    decreases |xs|
  {
    if xs != [] {
      var x, rest := xs[0], xs[1..];
      assert xs == [x] + rest;
      FreshProperties(if x in seen then seen else seen + [x], rest);
      if x !in seen {
        var more := Fresh(seen + [x], rest);
        assert x !in more;
        assert forall j | 1 <= j <= |more| :: ([x] + more)[j] == more[j - 1] && more[j - 1] in more;
      }
    }
  }

  /** `sub` picks elements of `xs` at increasing places. */
  predicate Subsequence(sub: seq<nat>, xs: seq<nat>)
    decreases |xs|
  {
    if sub == [] then true
    else if xs == [] then false
    else if sub[0] == xs[0] then Subsequence(sub[1..], xs[1..]) else Subsequence(sub, xs[1..])
  }

  lemma {:induction false} FreshKeepsOrder(seen: seq<nat>, xs: seq<nat>)
    ensures Subsequence(Fresh(seen, xs), xs)
    decreases |xs|
  {
    if xs != [] {
      var f := Fresh(seen, xs);
      if xs[0] in seen {
        FreshKeepsOrder(seen, xs[1..]);
        if f != [] {
          FreshProperties(seen, xs[1..]);
          assert f[0] in f;
        }
      } else {
        FreshKeepsOrder(seen + [xs[0]], xs[1..]);
        assert f[1..] == Fresh(seen + [xs[0]], xs[1..]);
      }
    }
  }

  lemma {:induction false} SubsequencePrefix(sub: seq<nat>, xs: seq<nat>, n: nat)
    requires Subsequence(sub, xs) && n <= |sub|
    ensures Subsequence(sub[..n], xs)
    decreases |xs|
  {
    if n > 0 {
      if sub[0] == xs[0] {
        SubsequencePrefix(sub[1..], xs[1..], n - 1);
        assert sub[..n][1..] == sub[1..][..n - 1];
      } else {
        SubsequencePrefix(sub, xs[1..], n);
      }
    }
  }

  /**
    The list starts with the primary group, repeats nothing, never exceeds `max`, holds
    after the first only groups that list the user, in file order, and holds all of them
    when there was room.
   */
  lemma GroupListExact(ls: seq<string>, user: string, gid: nat, max: nat)
    requires max > 0
    ensures var r := GroupsOf(ls, user, gid, max);
            && 0 < |r| <= max && r[0] == gid && NoDuplicates(r)
            && (forall i :: 1 <= i < |r| ==> r[i] in ListedGids(ls, user))
            && Subsequence(r[1..], ListedGids(ls, user))
            && (|r| < max ==> forall g :: g in ListedGids(ls, user) ==> g in r)
  {
    var others := Fresh([gid], ListedGids(ls, user));
    var all := [gid] + others;
    var r := GroupsOf(ls, user, gid, max);
    FreshProperties([gid], ListedGids(ls, user));
    FreshKeepsOrder([gid], ListedGids(ls, user));
    SubsequencePrefix(others, ListedGids(ls, user), |r| - 1);
    assert r[1..] == others[..|r| - 1];
    assert forall i | 1 <= i < |r| :: r[i] == others[i - 1] && others[i - 1] in others;
    assert |r| < max ==> r == all;
  }

  /** A gid is listed exactly when some line lists the user with it. */
  lemma {:induction false} ListedGidsFrom(ls: seq<string>, user: string, g: nat)
    ensures g in ListedGids(ls, user) <==> exists i :: 0 <= i < |ls| && ListedGid(ls[i], user) == Some(g)
  {
    hide ListedGid;
    if ls != [] {
      ListedGidsFrom(ls[1..], user, g);
      assert ls == [ls[0]] + ls[1..];
      assert forall i | 1 <= i < |ls| :: ls[i] == ls[1..][i - 1];
      if ListedGid(ls[0], user) == Some(g) {
        assert g in ListedGids(ls, user);
      } else if g in ListedGids(ls[1..], user) {
        var i :| 0 <= i < |ls| - 1 && ListedGid(ls[1..][i], user) == Some(g);
        assert ListedGid(ls[i + 1], user) == Some(g);
      }
    }
  }

  /** A line as the group file has it: name, password, gid and members; the third field is the gid of those it lists. */
  lemma GroupLineGid(group: string, password: string, gid: nat, members: string, user: string)
    requires Safe(group) && Safe(password) && Safe(members) && gid < TWO32 && |members| < MEMBERS_MAX
    ensures ListedGid(Join([group, password, ShowNat(gid), members]) + "\n", user) ==
            if user in Tokens(members) then Some(gid) else None
  {
    hide Tokens, Field, Join;
    var fs := [group, password, ShowNat(gid), members];
    ShowNatDigits(gid);
    assert Safe(ShowNat(gid)) && AllSafe(fs);
    IdLen(gid);
    IdRoundTrip(gid);
    ReadWhole(fs, 2, ID_MAX);
    ReadWhole(fs, 3, MEMBERS_MAX);
  }

  /** Members separated by commas. */
  function MemberText(users: seq<string>): string {
    if users == [] then "" else if |users| == 1 then users[0] else users[0] + "," + MemberText(users[1..])
  }

  /** The tokens of such a list are the members, empty ones left out. */
  lemma {:induction false} TokensAre(users: seq<string>, user: string)
    requires forall i :: 0 <= i < |users| ==> ',' !in users[i]
    ensures user in Tokens(MemberText(users)) <==> user != "" && user in users
  {
    if users == [] {
    } else {
      assert users == [users[0]] + users[1..];
      assert forall i :: 0 <= i < |users| - 1 ==> users[1..][i] == users[i + 1];
      TokensAre(users[1..], user);
      if |users| == 1 {
        assert users[0] + "" == users[0];
        FirstToken(users[0], "", user);
      } else {
        assert users[0] + "," + MemberText(users[1..]) == users[0] + ("," + MemberText(users[1..]));
        FirstToken(users[0], "," + MemberText(users[1..]), user);
        assert ("," + MemberText(users[1..]))[1..] == MemberText(users[1..]);
      }
    }
  }

  lemma {:induction false} TokenLenIs(first: string, rest: string)
    requires ',' !in first && (rest == "" || rest[0] == ',')
    ensures TokenLen(first + rest) == |first|
  {
    if first == "" {
      assert first + rest == rest;
    } else {
      assert first[0] in first && forall c :: c in first[1..] ==> c in first;
      assert (first + rest)[1..] == first[1..] + rest;
      TokenLenIs(first[1..], rest);
    }
  }

  lemma FirstToken(first: string, rest: string, user: string)
    requires ',' !in first && (rest == "" || rest[0] == ',')
    ensures user in Tokens(first + rest) <==> (user != "" && user == first) || user in Tokens(rest)
  {
    var s := first + rest;
    if first == "" {
      assert s == rest;
      NoEmptyToken(rest);
    } else {
      assert first[0] in first && s[0] == first[0];
      TokenLenIs(first, rest);
      assert s[..|first|] == first && s[|first|..] == rest;
      NoEmptyToken(s);
    }
  }

  lemma {:induction false} NoEmptyToken(s: string)
    ensures "" !in Tokens(s)
    decreases |s|
  {
    if s != "" {
      NoEmptyToken(if s[0] == ',' then s[1..] else s[TokenLen(s)..]);
    }
  }

  lemma {:induction false} ColonsBefore(line: string, n: nat, m: nat)
    requires m <= n && AfterColons(line, n).Some?
    ensures AfterColons(line, m).Some?
  {
    if m > 0 && line != "" {
      ColonsBefore(line[1..], if line[0] == ':' then n - 1 else n, if line[0] == ':' then m - 1 else m);
    }
  }

  /** Membership by name and the list agree: the group's line has its gid in an unfilled list. */
  lemma {:induction false} InGroupIsListed(ls: seq<string>, user: string, group: string) returns (i: nat)
    requires InGroup(ls, user, group)
    ensures i < |ls| && Named(ls[i], group) && ListedGid(ls[i], user).Some?
    ensures ListedGid(ls[i], user).value in ListedGids(ls, user)
  {
    if Named(ls[0], group) && Lists(ls[0], user) {
      ColonsBefore(ls[0], 3, 2);
      i := 0;
    } else {
      i := InGroupIsListed(ls[1..], user, group);
      i := i + 1;
    }
  }

  lemma MembersAreListed(ls: seq<string>, user: string, group: string, gid: nat, max: nat)
    requires InGroup(ls, user, group) && max > 0 && |GroupsOf(ls, user, gid, max)| < max
    ensures exists i :: 0 <= i < |ls| && Named(ls[i], group) && ListedGid(ls[i], user).Some? &&
                        ListedGid(ls[i], user).value in GroupsOf(ls, user, gid, max)
  {
    var i := InGroupIsListed(ls, user, group);
    GroupListExact(ls, user, gid, max);
  }
}
