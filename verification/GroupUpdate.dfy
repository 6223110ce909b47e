/** adduser's `ensure_group_member`: the rewrite of the group file and what it changes. */
module GroupUpdate {
  import opened Text
  import opened Fields
  import opened Shadow
  import opened Groups

  /** `strstr(s, t) != NULL` */
  predicate Contains(s: string, t: string) {
    t <= s || (s != "" && Contains(s[1..], t))
  }

  function Members(line: string): string {
    Get(Field(line, 3, MEMBERS_MAX), "")
  }

  /** The test that makes a line count as having the user already. */
  predicate Mentions(line: string, user: string) {
    Members(line) != "" && Contains(Members(line), user)
  }

  function MembersWith(line: string, user: string): string {
    if Members(line) == "" then user else Members(line) + "," + user
  }

  function GroupLine(group: string, password: string, gid: string, members: string): string {
    Join([group, password, gid, members]) + "\n"
  }

  function AddedLine(line: string, group: string, gid: nat, user: string): string {
    GroupLine(group, Get(Field(line, 1, GROUP_PASSWORD_MAX), "x"),
              Get(Field(line, 2, ID_MAX), ShowNat(gid)), MembersWith(line, user))
  }

  /** The loop over the lines; `has` is never reset once a line mentions the user. */
  function EnsureIn(ls: seq<string>, group: string, gid: nat, user: string, has: bool): seq<string> {
    if ls == [] then []
    else if !Named(ls[0], group) then [ls[0]] + EnsureIn(ls[1..], group, gid, user, has)
    else
      var now := has || Mentions(ls[0], user);
      [if now then ls[0] else AddedLine(ls[0], group, gid, user)] + EnsureIn(ls[1..], group, gid, user, now)
  }

  function NewGroup(ls: seq<string>, group: string, gid: nat, user: string): seq<string> {
    if Listed(ls, group) then [] else [GroupLine(group, "x", ShowNat(gid), user)]
  }

  function EnsureLines(ls: seq<string>, group: string, gid: nat, user: string): seq<string> {
    EnsureIn(ls, group, gid, user, false) + NewGroup(ls, group, gid, user)
  }

  function Ensure(file: string, group: string, gid: nat, user: string): string {
    Flatten(EnsureLines(Chunks(file), group, gid, user))
  }

  // ---- The routine ----

  datatype EnsureIo = EnsureIo(openTemp: bool, put: nat -> bool, fflush: bool, rename: bool)

  ghost predicate AllPut(n: nat, io: EnsureIo) {
    forall k: nat :: k < n ==> io.put(k)
  }

  ghost predicate EnsureRuns(file: string, group: string, user: string, io: EnsureIo) {
    io.openTemp && io.fflush && io.rename && AllPut(|EnsureLines(Chunks(file), group, 0, user)|, io)
  }

  /** `strstr` */
  method Strstr(s: string, t: string) returns (found: bool)
    ensures found <==> Contains(s, t)
  {
    var i := 0;
    assert s[0..] == s;
    while i < |s|
      invariant 0 <= i <= |s|
      invariant Contains(s, t) <==> Contains(s[i..], t)
    {
      if t <= s[i..] {
        return true;
      }
      assert s[i..][1..] == s[i + 1..];
      i := i + 1;
    }
    return t == "";
  }

  /** One line of the loop: what is printed for it, and the new value of `has_user`. */
  method EnsureLine(line: string, group: string, gid: nat, user: string, has: bool)
    returns (same: bool, now: bool, text: string)
    requires '\0' !in line
    ensures same <==> Named(line, group)
    ensures now <==> has || (same && Mentions(line, user))
    ensures text == if same && !now then AddedLine(line, group, gid, user) else line
  {
    hide Named;
    same := IsNamed(line, group);
    now := has;
    if !same {
      return same, now, line;
    }
    var members := ReadField(line, 3, MEMBERS_MAX);
    var password := ReadField(line, 1, GROUP_PASSWORD_MAX);
    var id := ReadField(line, 2, ID_MAX);
    var m := Get(members, "");
    if m != "" {
      var found := Strstr(m, user);
      if found {
        now := true;
      }
    }
    text := if now then line
            else GroupLine(group, Get(password, "x"), Get(id, ShowNat(gid)), if m == "" then user else m + "," + user);
  }

  /** What the loop writes for the unread part of the file. */
  function Ensured(unread: string, group: string, gid: nat, user: string, has: bool): string {
    Flatten(EnsureIn(Chunks(unread), group, gid, user, has))
  }

  /** The whole loop and the line of a missing group. */
  method CopyEnsured(file: string, group: string, gid: nat, user: string, io: EnsureIo) returns (ok: bool, dst: string)
    requires '\0' !in file
    ensures ok <==> AllPut(|EnsureLines(Chunks(file), group, 0, user)|, io)
    ensures ok ==> dst == Ensure(file, group, gid, user)
  {
    hide Named, Mentions, AddedLine, GroupLine, Ensure, Ensured, EnsureLines, Chunks, FirstChunk, AfterChunk, Listed;
    EnsureParts(file, group, gid, user);
    var unread, has, found, printed := file, false, false, 0;
    dst := "";
    while unread != ""
      invariant '\0' !in unread
      invariant dst + Ensured(unread, group, gid, user, has) == Ensured(file, group, gid, user, false)
      invariant printed + |Chunks(unread)| == |Chunks(file)|
      invariant found || Listed(Chunks(unread), group) <==> Listed(Chunks(file), group)
      invariant AllPut(printed, io)
      decreases |unread|
    {
      var line := FirstChunk(unread);
      NulFreeStep(unread);
      EnsureStep(unread, group, gid, user, has);
      unread := AfterChunk(unread);
      if !io.put(printed) {
        return false, dst;
      }
      var same, now, text := EnsureLine(line, group, gid, user, has);
      dst, found, has, printed := dst + text, found || same, now, printed + 1;
    }
    if !found {
      if !io.put(printed) {
        return false, dst;
      }
      dst := dst + GroupLine(group, "x", ShowNat(gid), user);
    }
    ok := true;
  }

  lemma EnsureStep(unread: string, group: string, gid: nat, user: string, has: bool)
    requires unread != ""
    ensures var line, more := FirstChunk(unread), Chunks(AfterChunk(unread));
            var same := Named(line, group);
            var now := has || (same && Mentions(line, user));
            && Ensured(unread, group, gid, user, has) ==
               (if same && !now then AddedLine(line, group, gid, user) else line) +
               Ensured(AfterChunk(unread), group, gid, user, now)
            && (Listed(Chunks(unread), group) <==> same || Listed(more, group))
            && |Chunks(unread)| == 1 + |more|
  {
    hide Named, Mentions, AddedLine;
    var ls := Chunks(unread);
    assert ls[0] == FirstChunk(unread) && ls[1..] == Chunks(AfterChunk(unread));
  }

  lemma EnsureParts(file: string, group: string, gid: nat, user: string)
    ensures Ensure(file, group, gid, user) ==
            Ensured(file, group, gid, user, false) +
            if Listed(Chunks(file), group) then "" else GroupLine(group, "x", ShowNat(gid), user)
    ensures Chunks("") == [] && !Listed([], group) && forall has :: Ensured("", group, gid, user, has) == ""
    ensures |EnsureLines(Chunks(file), group, 0, user)| ==
            |Chunks(file)| + if Listed(Chunks(file), group) then 0 else 1
  {
    hide Named, GroupLine;
    var ls := Chunks(file);
    FlattenConcat(EnsureIn(ls, group, gid, user, false), NewGroup(ls, group, gid, user));
    FlattenOne(GroupLine(group, "x", ShowNat(gid), user));
    EnsureInLength(ls, group, 0, user, false);
  }

  lemma {:induction false} EnsureInLength(ls: seq<string>, group: string, gid: nat, user: string, has: bool)
    ensures |EnsureIn(ls, group, gid, user, has)| == |ls|
  {
    hide Named, Mentions, AddedLine;
    if ls != [] {
      EnsureInLength(ls[1..], group, gid, user, has || (Named(ls[0], group) && Mentions(ls[0], user)));
    }
  }

  lemma AddedLineNulFree(line: string, group: string, gid: nat, user: string)
    requires '\0' !in line && '\0' !in group && '\0' !in user
    ensures '\0' !in AddedLine(line, group, gid, user)
  {
    ShowNatDigits(gid);
    PartNulFree(line, 1, GROUP_PASSWORD_MAX);
    PartNulFree(line, 2, ID_MAX);
    PartNulFree(line, 3, MEMBERS_MAX);
    JoinNulFree(group, Get(Field(line, 1, GROUP_PASSWORD_MAX), "x"),
                Get(Field(line, 2, ID_MAX), ShowNat(gid)), MembersWith(line, user));
  }

  lemma JoinNulFree(group: string, password: string, gid: string, members: string)
    requires '\0' !in group && '\0' !in password && '\0' !in gid && '\0' !in members
    ensures '\0' !in GroupLine(group, password, gid, members)
  {
    var fs := [group, password, gid, members];
    assert fs[1..] == [password, gid, members] && fs[1..][1..] == [gid, members] && fs[1..][1..][1..] == [members];
    assert Join([gid, members]) == gid + ":" + members;
    assert Join([password, gid, members]) == password + ":" + Join([gid, members]);
    assert Join(fs) == group + ":" + Join([password, gid, members]);
  }

  lemma PartNulFree(line: string, idx: nat, outlen: nat)
    requires outlen > 0 && '\0' !in line
    ensures Field(line, idx, outlen).Some? ==> '\0' !in Field(line, idx, outlen).value
  {
    if Field(line, idx, outlen).Some? {
      FieldIsPart(line, idx, outlen);
    }
  }

  lemma {:induction false} EnsureInNulFree(ls: seq<string>, group: string, gid: nat, user: string, has: bool)
    requires '\0' !in Flatten(ls) && '\0' !in group && '\0' !in user
    ensures '\0' !in Flatten(EnsureIn(ls, group, gid, user, has))
  {
    hide Named, Mentions, AddedLine;
    if ls != [] {
      assert Flatten(ls) == ls[0] + Flatten(ls[1..]);
      AddedLineNulFree(ls[0], group, gid, user);
      EnsureInNulFree(ls[1..], group, gid, user, has || (Named(ls[0], group) && Mentions(ls[0], user)));
    }
  }

  lemma EnsureNulFree(file: string, group: string, gid: nat, user: string)
    requires '\0' !in file && '\0' !in group && '\0' !in user
    ensures '\0' !in Ensure(file, group, gid, user)
  {
    hide GroupLine, Ensure, EnsureLines;
    FlattenChunks(file);
    EnsureInNulFree(Chunks(file), group, gid, user, false);
    ShowNatDigits(gid);
    JoinNulFree(group, "x", ShowNat(gid), user);
    EnsureParts(file, group, gid, user);
  }

  class GroupFile {
    var group: Option<string>

    constructor (group: Option<string>)
      ensures this.group == group
    {
      this.group := group;
    }

    /** A missing group file counts as an empty one. */
    method EnsureGroupMember(name: string, gid: nat, user: string, io: EnsureIo) returns (rc: int)
      requires group.Some? ==> '\0' !in group.value
      modifies this
      ensures rc == if old(EnsureRuns(Get(group, ""), name, user, io)) then 0 else -1
      ensures rc == 0 <==>
              var ls := Chunks(Get(old(group), ""));
              && io.openTemp && io.fflush && io.rename
              && forall k: nat :: k < |ls| + (if Listed(ls, name) then 0 else 1) ==> io.put(k)
      ensures group == if rc == 0 then Some(Ensure(Get(old(group), ""), name, gid, user)) else old(group)
    {
      EnsureInLength(Chunks(Get(group, "")), name, 0, user, false);
      hide EnsureIn, Chunks, Listed, Ensure;
      if !io.openTemp {
        return -1;
      }
      var ok, dst := CopyEnsured(Get(group, ""), name, gid, user, io);
      if !ok || !io.fflush || !io.rename {
        return -1;
      }
      group := Some(dst);
      return 0;
    }
  }

  // ---- What it means ----

  predicate GroupName(group: string) {
    Safe(group) && |group| < NAME_MAX
  }

  predicate MemberName(user: string) {
    user != "" && Safe(user) && ',' !in user
  }

  /** Rewritten lines fit the line buffer and their member lists the members buffer. */
  predicate AdditionsFit(ls: seq<string>, group: string, gid: nat, user: string, has: bool) {
    ls == [] ||
    if !Named(ls[0], group) then AdditionsFit(ls[1..], group, gid, user, has)
    else
      var now := has || Mentions(ls[0], user);
      && (now || (|AddedLine(ls[0], group, gid, user)| <= LINE_ROOM && |MembersWith(ls[0], user)| < MEMBERS_MAX))
      && AdditionsFit(ls[1..], group, gid, user, now)
  }

  predicate GroupFits(ls: seq<string>, group: string, gid: nat, user: string) {
    && AdditionsFit(ls, group, gid, user, false)
    && (Listed(ls, group) || |GroupLine(group, "x", ShowNat(gid), user)| <= LINE_ROOM) && |user| < MEMBERS_MAX
  }

  /** The first line of the group mentions the user: nothing will be added. */
  predicate Blocked(ls: seq<string>, group: string, user: string) {
    ls != [] && if Named(ls[0], group) then Mentions(ls[0], user) else Blocked(ls[1..], group, user)
  }

  lemma GroupLineReads(group: string, password: string, gid: string, members: string)
    requires GroupName(group) && Safe(password) && Safe(gid) && Safe(members) && |members| < MEMBERS_MAX
    requires |GroupLine(group, password, gid, members)| <= LINE_ROOM
    ensures var l := GroupLine(group, password, gid, members);
            && IsLine(l) && Field(l, 0, NAME_MAX) == Some(group) && Field(l, 3, MEMBERS_MAX) == Some(members)
            && (|password| < GROUP_PASSWORD_MAX ==> Field(l, 1, GROUP_PASSWORD_MAX) == Some(password))
            && (|gid| < ID_MAX ==> Field(l, 2, ID_MAX) == Some(gid))
  {
    var fs := [group, password, gid, members];
    JoinIsLine(fs);
    ReadWhole(fs, 0, NAME_MAX);
    if |password| < GROUP_PASSWORD_MAX {
      ReadWhole(fs, 1, GROUP_PASSWORD_MAX);
    }
    if |gid| < ID_MAX {
      ReadWhole(fs, 2, ID_MAX);
    }
    ReadWhole(fs, 3, MEMBERS_MAX);
  }

  lemma SafeParts(line: string, gid: nat, user: string)
    requires MemberName(user)
    ensures Safe(Get(Field(line, 1, GROUP_PASSWORD_MAX), "x")) && Safe(Get(Field(line, 2, ID_MAX), ShowNat(gid)))
    ensures Safe(MembersWith(line, user)) && Safe(ShowNat(gid))
  {
    ShowNatDigits(gid);
  }

  lemma {:induction false} TokensWith(members: string, user: string)
    requires MemberName(user)
    ensures Tokens(members + "," + user) == Tokens(members) + [user]
    ensures Tokens(user) == [user]
    decreases |members|
  {
    var all := members + "," + user;
    assert forall k | 0 <= k < |user| :: user[k] in user && user[k] != ',';
    assert user[|user|..] == "" && user[..|user|] == user && user[0] in user;
    if members == "" {
      assert all == "," + user && all[1..] == user;
    } else if members[0] == ',' {
      assert all[1..] == members[1..] + "," + user;
      TokensWith(members[1..], user);
    } else {
      var n := TokenLen(members);
      SameTokenLen(members, "," + user);
      assert all == members + ("," + user);
      assert all[n..] == members[n..] + "," + user && all[..n] == members[..n];
      TokensWith(members[n..], user);
    }
  }

  lemma {:induction false} SameTokenLen(s: string, more: string)
    requires more != "" && more[0] == ','
    ensures TokenLen(s + more) == TokenLen(s)
  {
    if s != "" {
      assert (s + more)[1..] == s[1..] + more;
      SameTokenLen(s[1..], more);
    } else {
      assert s + more == more;
    }
  }

  /** A line that gets the user keeps its group, lists the user, and lists everyone it did. */
  lemma AddedLineReads(line: string, group: string, gid: nat, user: string, other: string)
    requires GroupName(group) && MemberName(user) && Named(line, group)
    requires |AddedLine(line, group, gid, user)| <= LINE_ROOM && |MembersWith(line, user)| < MEMBERS_MAX
    ensures var l := AddedLine(line, group, gid, user);
            && IsLine(l) && Field(l, 0, NAME_MAX) == Some(group)
            && Members(l) == MembersWith(line, user)
            && (Lists(l, other) <==> other == user || Lists(line, other))
  {
    hide GroupLine;
    SafeParts(line, gid, user);
    GroupLineReads(group, Get(Field(line, 1, GROUP_PASSWORD_MAX), "x"),
                   Get(Field(line, 2, ID_MAX), ShowNat(gid)), MembersWith(line, user));
    TokensWith(Members(line), user);
    assert Tokens("") == [];
  }

  lemma {:induction false} EnsureInHas(ls: seq<string>, group: string, gid: nat, user: string)
    ensures EnsureIn(ls, group, gid, user, true) == ls
  {
    hide Named, Mentions, AddedLine;
    if ls != [] {
      EnsureInHas(ls[1..], group, gid, user);
    }
  }

  lemma {:induction false} EnsureInLines(ls: seq<string>, group: string, gid: nat, user: string, has: bool)
    requires AllLines(ls) && GroupName(group) && MemberName(user) && AdditionsFit(ls, group, gid, user, has)
    ensures AllLines(EnsureIn(ls, group, gid, user, has))
  {
    hide Mentions, AddedLine, IsLine, MembersWith;
    if ls != [] {
      var now := has || (Named(ls[0], group) && Mentions(ls[0], user));
      EnsureInLines(ls[1..], group, gid, user, now);
      if Named(ls[0], group) && !now {
        AddedLineReads(ls[0], group, gid, user, user);
      }
    }
  }

  lemma EnsureChunks(file: string, group: string, gid: nat, user: string)
    requires WellFormed(file) && GroupName(group) && MemberName(user) && GroupFits(Chunks(file), group, gid, user)
    ensures Chunks(Ensure(file, group, gid, user)) == EnsureLines(Chunks(file), group, gid, user)
    ensures WellFormed(Ensure(file, group, gid, user))
  {
    hide GroupLine, EnsureIn, IsLine;
    var ls := Chunks(file);
    EnsureInLines(ls, group, gid, user, false);
    SafeParts("", gid, user);
    if !Listed(ls, group) {
      GroupLineReads(group, "x", ShowNat(gid), user);
    }
    AllLinesConcat(EnsureIn(ls, group, gid, user, false), NewGroup(ls, group, gid, user));
    ChunksOfLines(EnsureLines(ls, group, gid, user));
  }

  /** Line `k` is the group's and has the name in its member list. */
  predicate MentionedAt(ls: seq<string>, group: string, user: string, k: nat) {
    k < |ls| && Named(ls[k], group) && Mentions(ls[k], user)
  }

  lemma {:induction false} EnsureInAt(ls: seq<string>, group: string, gid: nat, user: string, has: bool, i: nat)
    requires i < |ls|
    ensures |EnsureIn(ls, group, gid, user, has)| == |ls|
    ensures EnsureIn(ls, group, gid, user, has)[i] ==
            if Named(ls[i], group) && !has && (forall k :: 0 <= k <= i ==> !MentionedAt(ls, group, user, k))
            then AddedLine(ls[i], group, gid, user) else ls[i]
  {
    hide Named, Mentions, AddedLine;
    var now := has || MentionedAt(ls, group, user, 0);
    EnsureInLength(ls, group, gid, user, has);
    if i > 0 {
      EnsureInAt(ls[1..], group, gid, user, now, i - 1);
      assert forall k :: 1 <= k <= i ==> (MentionedAt(ls, group, user, k) <==> MentionedAt(ls[1..], group, user, k - 1));
      assert forall k :: 0 <= k <= i - 1 ==> (MentionedAt(ls[1..], group, user, k) <==> MentionedAt(ls, group, user, k + 1));
    }
  }

  /**
    Line by line: an update changes the lines of the group up to the first that mentions the user, and of those only
    the members; password and gid stay, or get their defaults where a line has none. A group without a line gets one.
   */
  lemma EnsureKeepsLines(file: string, group: string, gid: nat, user: string, i: nat)
    requires WellFormed(file) && GroupName(group) && MemberName(user) && GroupFits(Chunks(file), group, gid, user)
    requires gid < TWO32 && i < |Chunks(file)|
    ensures var before, after := Chunks(file), Chunks(Ensure(file, group, gid, user));
            && |after| == |before| + (if Listed(before, group) then 0 else 1)
            && (if Named(before[i], group) && (forall k :: 0 <= k <= i ==> !MentionedAt(before, group, user, k)) then
                  && Field(after[i], 0, NAME_MAX) == Some(group)
                  && Field(after[i], 1, 8) == Some(Get(Field(before[i], 1, 8), "x"))
                  && Field(after[i], 2, 32) == Some(Get(Field(before[i], 2, 32), ShowNat(gid)))
                  && Field(after[i], 3, 256) ==
                     Some(if Get(Field(before[i], 3, 256), "") == "" then user
                          else Get(Field(before[i], 3, 256), "") + "," + user)
                else after[i] == before[i])
            && (!Listed(before, group) ==>
                  var added := after[|before|];
                  Field(added, 0, NAME_MAX) == Some(group) && Field(added, 1, 8) == Some("x") &&
                  Field(added, 2, 32) == Some(ShowNat(gid)) && Field(added, 3, 256) == Some(user))
  {
    hide GroupLine, Field, Chunks, Ensure, AdditionsFit, WellFormed, Named, IsLine;
    var before := Chunks(file);
    EnsureChunks(file, group, gid, user);
    EnsureInAt(before, group, gid, user, false, i);
    SafeParts(before[i], gid, user);
    IdLen(gid);
    if !Listed(before, group) {
      GroupLineReads(group, "x", ShowNat(gid), user);
    }
    if Named(before[i], group) && (forall k :: 0 <= k <= i ==> !MentionedAt(before, group, user, k)) {
      AdditionFits(before, group, gid, user, false, i);
      AddedFields(before[i], group, gid, user);
    }
  }

  lemma {:induction false} AdditionFits(ls: seq<string>, group: string, gid: nat, user: string, has: bool, i: nat)
    requires AdditionsFit(ls, group, gid, user, has) && i < |ls| && !has
    requires Named(ls[i], group) && forall k :: 0 <= k <= i ==> !MentionedAt(ls, group, user, k)
    ensures |AddedLine(ls[i], group, gid, user)| <= LINE_ROOM && |MembersWith(ls[i], user)| < MEMBERS_MAX
  {
    hide Named, Mentions, AddedLine, MembersWith;
    assert !MentionedAt(ls, group, user, 0);
    if i > 0 {
      assert forall k :: 0 <= k <= i - 1 ==> (MentionedAt(ls[1..], group, user, k) <==> MentionedAt(ls, group, user, k + 1));
      AdditionFits(ls[1..], group, gid, user, has, i - 1);
    }
  }

  lemma AddedFields(line: string, group: string, gid: nat, user: string)
    requires GroupName(group) && MemberName(user) && Named(line, group) && gid < TWO32
    requires |AddedLine(line, group, gid, user)| <= LINE_ROOM && |MembersWith(line, user)| < MEMBERS_MAX
    ensures var l := AddedLine(line, group, gid, user);
            && Field(l, 0, NAME_MAX) == Some(group)
            && Field(l, 1, GROUP_PASSWORD_MAX) == Some(Get(Field(line, 1, GROUP_PASSWORD_MAX), "x"))
            && Field(l, 2, ID_MAX) == Some(Get(Field(line, 2, ID_MAX), ShowNat(gid)))
            && Field(l, 3, MEMBERS_MAX) == Some(MembersWith(line, user))
  {
    SafeParts(line, gid, user);
    IdLen(gid);
    hide GroupLine;
    GroupLineReads(group, Get(Field(line, 1, GROUP_PASSWORD_MAX), "x"),
                   Get(Field(line, 2, ID_MAX), ShowNat(gid)), MembersWith(line, user));
  }

  lemma {:induction false} InGroupConcat(a: seq<string>, b: seq<string>, user: string, group: string)
    ensures InGroup(a + b, user, group) <==> InGroup(a, user, group) || InGroup(b, user, group)
  {
    hide Named, Lists;
    if a == [] {
      assert a + b == b;
    } else {
      assert (a + b)[1..] == a[1..] + b;
      InGroupConcat(a[1..], b, user, group);
    }
  }

  predicate MemberAfter(ls: seq<string>, group: string, user: string) {
    InGroup(ls, user, group) || (Listed(ls, group) && !Blocked(ls, group, user))
  }

  lemma {:induction false} InGroupEnsured(ls: seq<string>, group: string, gid: nat, user: string, v: string, g: string)
    requires GroupName(group) && MemberName(user) && AdditionsFit(ls, group, gid, user, false)
    ensures InGroup(EnsureIn(ls, group, gid, user, false), v, g) <==>
            if v == user && g == group then MemberAfter(ls, group, user) else InGroup(ls, v, g)
  {
    hide Mentions, AddedLine, Lists, MembersWith;
    if ls != [] {
      if !Named(ls[0], group) {
        InGroupEnsured(ls[1..], group, gid, user, v, g);
      } else if Mentions(ls[0], user) {
        EnsureInHas(ls, group, gid, user);
        assert EnsureIn(ls, group, gid, user, false) == EnsureIn(ls, group, gid, user, true);
      } else {
        AddedLineReads(ls[0], group, gid, user, v);
        InGroupEnsured(ls[1..], group, gid, user, v, g);
      }
    }
  }

  /**
    After a successful update the user is in the group exactly when it already was,
    when the group had no line, or when the group's first line does not mention the name
    anywhere in its member list. No other answer changes.
   */
  lemma EnsureMembership(file: string, group: string, gid: nat, user: string, v: string, g: string)
    requires WellFormed(file) && GroupName(group) && MemberName(user) && GroupFits(Chunks(file), group, gid, user)
    ensures InGroup(Chunks(Ensure(file, group, gid, user)), v, g) <==>
            if v == user && g == group
            then InGroup(Chunks(file), user, group) || !Listed(Chunks(file), group) || !Blocked(Chunks(file), group, user)
            else InGroup(Chunks(file), v, g)
  {
    hide GroupLine, EnsureIn, Blocked, AdditionsFit;
    var ls := Chunks(file);
    EnsureChunks(file, group, gid, user);
    InGroupEnsured(ls, group, gid, user, v, g);
    InGroupConcat(EnsureIn(ls, group, gid, user, false), NewGroup(ls, group, gid, user), v, g);
    if !Listed(ls, group) {
      NewGroupReads(group, gid, user, v, g);
    }
  }

  lemma NewGroupReads(group: string, gid: nat, user: string, v: string, g: string)
    requires GroupName(group) && MemberName(user) && |user| < MEMBERS_MAX
    requires |GroupLine(group, "x", ShowNat(gid), user)| <= LINE_ROOM
    ensures InGroup([GroupLine(group, "x", ShowNat(gid), user)], v, g) <==> v == user && g == group
  {
    hide GroupLine;
    SafeParts("", gid, user);
    GroupLineReads(group, "x", ShowNat(gid), user);
    TokensWith("", user);
  }

  // ---- When the substring test is harmless ----

  lemma {:induction false} ContainsSplit(token: string, rest: string, user: string)
    requires MemberName(user) && (rest == "" || rest[0] == ',')
    requires Contains(token + rest, user)
    ensures Contains(token, user) || Contains(rest, user)
  {
    var all := token + rest;
    if token == "" {
      assert all == rest;
    } else if user <= all {
      assert forall k | 0 <= k < |user| :: user[k] in user && user[k] != ',';
      assert |token| < |all| ==> all[|token|] == ',';
      assert user == all[..|user|] == token[..|user|];
    } else {
      assert all[1..] == token[1..] + rest;
      ContainsSplit(token[1..], rest, user);
    }
  }

  /** A name found anywhere in a member list is found in one of its members. */
  lemma {:induction false} ContainsToken(members: string, user: string) returns (token: string)
    requires MemberName(user) && Contains(members, user)
    ensures token in Tokens(members) && Contains(token, user)
    decreases |members|
  {
    assert user[0] in user;
    if members[0] == ',' {
      token := ContainsToken(members[1..], user);
    } else {
      var n := TokenLen(members);
      assert members == members[..n] + members[n..];
      ContainsSplit(members[..n], members[n..], user);
      if Contains(members[..n], user) {
        token := members[..n];
      } else {
        token := ContainsToken(members[n..], user);
      }
    }
  }

  /** No member of the group's lines has the new name as a proper part. */
  predicate NoLongerMember(ls: seq<string>, group: string, user: string) {
    ls == [] ||
    ((Named(ls[0], group) ==> forall t :: t in Tokens(Members(ls[0])) && Contains(t, user) ==> t == user)
     && NoLongerMember(ls[1..], group, user))
  }

  lemma {:induction false} BlockedByMember(ls: seq<string>, group: string, user: string)
    requires MemberName(user) && Blocked(ls, group, user) && NoLongerMember(ls, group, user)
    ensures InGroup(ls, user, group)
  {
    if Named(ls[0], group) {
      var token := ContainsToken(Members(ls[0]), user);
    } else {
      BlockedByMember(ls[1..], group, user);
    }
  }

  /** Unless a longer member name contains the new one, a successful update makes it a member. */
  lemma EnsureMakesMember(file: string, group: string, gid: nat, user: string)
    requires WellFormed(file) && GroupName(group) && MemberName(user) && GroupFits(Chunks(file), group, gid, user)
    requires NoLongerMember(Chunks(file), group, user)
    ensures InGroup(Chunks(Ensure(file, group, gid, user)), user, group)
  {
    hide GroupFits, NoLongerMember, Ensure;
    EnsureMembership(file, group, gid, user, user, group);
    if Blocked(Chunks(file), group, user) {
      BlockedByMember(Chunks(file), group, user);
    }
  }

  /** A group whose only member has the new name as a proper part does not get the new member. */
  lemma LongerMemberBlocks(group: string, id: string, gid: nat, member: string, user: string)
    requires GroupName(group) && MemberName(user) && MemberName(member) && Safe(id)
    requires |member| < MEMBERS_MAX && |user| < MEMBERS_MAX && |GroupLine(group, "x", id, member)| <= LINE_ROOM
    requires Contains(member, user) && member != user
    ensures var file := GroupLine(group, "x", id, member);
            WellFormed(file) && !InGroup(Chunks(Ensure(file, group, gid, user)), user, group)
  {
    hide GroupLine, Ensure;
    var line := GroupLine(group, "x", id, member);
    GroupLineReads(group, "x", id, member);
    TokensWith("", member);
    ChunksOfLines([line]);
    FlattenOne(line);
    ListedOne(line, group);
    assert Mentions(line, user) && !Lists(line, user);
    OneLineFits(line, group, gid, user);
    assert !InGroup([line][1..], user, group);
    EnsureMembership(line, group, gid, user, user, group);
  }

  lemma OneLineFits(line: string, group: string, gid: nat, user: string)
    requires Named(line, group) && Mentions(line, user) && |user| < MEMBERS_MAX
    ensures GroupFits([line], group, gid, user) && Blocked([line], group, user)
  {
    hide Named, Mentions, AddedLine, GroupLine;
    assert AdditionsFit([line][1..], group, gid, user, true);
  }

  /** `anna` is not added to a `wheel` whose member is `annabel`, and the update succeeds. */
  lemma AnnaIsNotAdded()
    ensures var file := GroupLine("wheel", "x", "10", "annabel");
            WellFormed(file) && !InGroup(Chunks(Ensure(file, "wheel", 10, "anna")), "anna", "wheel")
  {
    hide Ensure, WellFormed;
    assert "anna" <= "annabel";
    LongerMemberBlocks("wheel", "10", 10, "annabel", "anna");
  }

  // ---- Doing it twice ----

  lemma {:induction false} ContainsSuffix(s: string, user: string)
    ensures Contains(s + user, user)
  {
    if s == "" {
      assert s + user == user;
    } else {
      ContainsSuffix(s[1..], user);
      assert (s + user)[1..] == s[1..] + user;
    }
  }

  lemma AddedLineMentions(line: string, group: string, gid: nat, user: string)
    requires GroupName(group) && MemberName(user) && Named(line, group)
    requires |AddedLine(line, group, gid, user)| <= LINE_ROOM && |MembersWith(line, user)| < MEMBERS_MAX
    ensures Mentions(AddedLine(line, group, gid, user), user)
  {
    hide AddedLine;
    AddedLineReads(line, group, gid, user, user);
    ContainsSuffix(if Members(line) == "" then "" else Members(line) + ",", user);
  }

  lemma {:induction false} EnsureInTwice(ls: seq<string>, group: string, gid: nat, user: string)
    requires GroupName(group) && MemberName(user) && AdditionsFit(ls, group, gid, user, false)
    ensures var once := EnsureIn(ls, group, gid, user, false);
            EnsureIn(once, group, gid, user, false) == once
    ensures Listed(EnsureIn(ls, group, gid, user, false), group) == Listed(ls, group)
  {
    hide Mentions, AddedLine, Lists, MembersWith;
    if ls != [] {
      var once := EnsureIn(ls, group, gid, user, false);
      if !Named(ls[0], group) {
        EnsureInTwice(ls[1..], group, gid, user);
      } else {
        if !Mentions(ls[0], user) {
          AddedLineReads(ls[0], group, gid, user, user);
          AddedLineMentions(ls[0], group, gid, user);
        }
        assert Named(once[0], group) && Mentions(once[0], user);
        EnsureInHas(once[1..], group, gid, user);
      }
    }
  }

  lemma EnsureLinesTwice(ls: seq<string>, group: string, gid: nat, user: string)
    requires GroupName(group) && MemberName(user) && GroupFits(ls, group, gid, user)
    ensures EnsureLines(EnsureLines(ls, group, gid, user), group, gid, user) == EnsureLines(ls, group, gid, user)
  {
    hide GroupLine, AdditionsFit, Mentions, EnsureIn, Named, Listed;
    var body, extra := EnsureIn(ls, group, gid, user, false), NewGroup(ls, group, gid, user);
    EnsureInTwice(ls, group, gid, user);
    ListedConcat(body, extra, group);
    if Listed(ls, group) {
      assert body + extra == body;
    } else {
      NewGroupMentions(group, gid, user);
      ListedOne(extra[0], group);
      EnsureInUnlisted(body, extra, group, gid, user);
    }
  }

  lemma ListedOne(line: string, group: string)
    ensures Listed([line], group) <==> Named(line, group)
  {
    assert !Listed([line][1..], group);
  }

  lemma NewGroupMentions(group: string, gid: nat, user: string)
    requires GroupName(group) && MemberName(user) && |user| < MEMBERS_MAX
    requires |GroupLine(group, "x", ShowNat(gid), user)| <= LINE_ROOM
    ensures var l := GroupLine(group, "x", ShowNat(gid), user); Named(l, group) && Mentions(l, user)
  {
    hide GroupLine;
    SafeParts("", gid, user);
    GroupLineReads(group, "x", ShowNat(gid), user);
    ContainsSuffix("", user);
    assert "" + user == user;
  }

  /** A second update changes nothing. */
  lemma EnsureTwice(file: string, group: string, gid: nat, user: string)
    requires WellFormed(file) && GroupName(group) && MemberName(user) && GroupFits(Chunks(file), group, gid, user)
    ensures Ensure(Ensure(file, group, gid, user), group, gid, user) == Ensure(file, group, gid, user)
  {
    hide EnsureLines, GroupFits;
    EnsureChunks(file, group, gid, user);
    EnsureLinesTwice(Chunks(file), group, gid, user);
  }

  /** Lines before the group's only line are copied. */
  lemma {:induction false} EnsureInUnlisted(a: seq<string>, b: seq<string>, group: string, gid: nat, user: string)
    requires !Listed(a, group) && |b| == 1 && Named(b[0], group) && Mentions(b[0], user)
    ensures EnsureIn(a + b, group, gid, user, false) == a + b
  {
    hide Mentions, AddedLine;
    if a == [] {
      assert a + b == b;
      assert EnsureIn(b[1..], group, gid, user, true) == [];
    } else {
      assert (a + b)[1..] == a[1..] + b;
      EnsureInUnlisted(a[1..], b, group, gid, user);
    }
  }
}
