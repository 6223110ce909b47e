/** What an update of the shadow file keeps, byte for byte. */
module ShadowLaws {
  import opened Text
  import opened Fields
  import opened Shadow

  /** A user name and a hash that an entry can carry. */
  predicate Writable(user: string, hash: string) {
    Safe(user) && |user| < NAME_MAX && Safe(hash)
  }

  predicate RewrittenFit(ls: seq<string>, user: string, hash: string) {
    ls == [] || (|Rewrite(ls[0], user, hash)| <= LINE_ROOM && RewrittenFit(ls[1..], user, hash))
  }

  /** Every line the update writes fits the readers' buffer. */
  predicate Fits(ls: seq<string>, user: string, hash: string) {
    RewrittenFit(ls, user, hash) && (Listed(ls, user) || |Entry(user, hash, AGING)| <= LINE_ROOM)
  }

  // ---- One entry ----

  /** An entry has the user's name and the whole hash, and its aging fields are read back. */
  lemma EntryFields(user: string, hash: string, aging: string)
    requires Writable(user, hash)
    ensures Field(Entry(user, hash, aging), 0, NAME_MAX) == Some(user)
    ensures forall hashlen: nat :: hashlen > |hash| ==> Field(Entry(user, hash, aging), 1, hashlen) == Some(hash)
    ensures AfterColons(Entry(user, hash, aging), 2) == Some(aging + "\n")
  {
    var e := Entry(user, hash, aging);
    var rest := hash + ":" + aging + "\n";
    assert e == user + ":" + rest && e == user + (":" + rest);
    assert rest == hash + ":" + (aging + "\n") && rest == hash + (":" + aging + "\n");
    FieldTextOf(user, ":" + rest, NAME_MAX - 1);
    assert user[..|user|] == user && hash[..|hash|] == hash;
    AfterFirstColon(user, rest, 1);
    AfterFirstColon(user, rest, 2);
    AfterFirstColon(hash, aging + "\n", 1);
    forall hashlen: nat | hashlen > |hash|
      ensures Field(e, 1, hashlen) == Some(hash)
    {
      FieldTextOf(hash, ":" + aging + "\n", hashlen - 1);
    }
  }

  /** The kept aging fields hold no newline and no trailing carriage return. */
  lemma AgingIsText(line: string)
    requires IsLine(line)
    ensures '\n' !in Aging(line) && StripEol(Aging(line)) == Aging(line)
  {
    AfterColonsSuffix(line, 2);
    match AfterColons(line, 2)
    case None =>
    case Some(rest) =>
      if rest != "" {
        var t := StripEol(rest);
        assert forall i | 0 <= i < |line| - 1 :: line[i] == line[..|line| - 1][i];
        assert t == rest[..|t|];
        assert rest[|rest| - 1] == '\n';
        assert |t| < |rest|;
        assert forall i | 0 <= i < |t| :: t[i] == line[|line| - |rest| + i];
      }
  }

  /** Reading the aging fields of a written entry gives the ones written. */
  lemma AgingOfEntry(user: string, hash: string, aging: string)
    requires Writable(user, hash) && StripEol(aging) == aging
    ensures Aging(Entry(user, hash, aging)) == aging
  {
    EntryFields(user, hash, aging);
    var rest := aging + "\n";
    assert rest[..|rest| - 1] == aging;
  }

  lemma EntryIsLine(user: string, hash: string, aging: string)
    requires Writable(user, hash) && '\n' !in aging && |Entry(user, hash, aging)| <= LINE_ROOM
    ensures IsLine(Entry(user, hash, aging))
  {
    var e := Entry(user, hash, aging);
    assert e[..|e| - 1] == user + ":" + hash + ":" + aging;
  }

  // ---- All lines ----

  lemma RewriteIsLine(line: string, user: string, hash: string)
    requires IsLine(line) && Writable(user, hash) && |Rewrite(line, user, hash)| <= LINE_ROOM
    ensures IsLine(Rewrite(line, user, hash))
  {
    hide Named, Entry, Aging;
    AgingIsText(line);
    if Named(line, user) {
      EntryIsLine(user, hash, Aging(line));
    }
  }

  lemma {:induction false} RewriteAllLines(ls: seq<string>, user: string, hash: string)
    requires AllLines(ls) && Writable(user, hash) && RewrittenFit(ls, user, hash)
    ensures AllLines(RewriteAll(ls, user, hash))
  {
    hide Rewrite, IsLine;
    if ls != [] {
      RewriteIsLine(ls[0], user, hash);
      RewriteAllLines(ls[1..], user, hash);
    }
  }

  lemma SetLinesAreLines(ls: seq<string>, user: string, hash: string)
    requires AllLines(ls) && Writable(user, hash) && Fits(ls, user, hash)
    ensures AllLines(SetLines(ls, user, hash))
  {
    hide Rewrite, IsLine, Entry;
    RewriteAllLines(ls, user, hash);
    if !Listed(ls, user) {
      EntryIsLine(user, hash, AGING);
    }
    AllLinesConcat(RewriteAll(ls, user, hash), Appended(ls, user, hash));
  }

  /** An update of a well-formed file leaves a well-formed file with exactly the lines it wrote. */
  lemma SetHashChunks(file: string, user: string, hash: string)
    requires WellFormed(file) && Writable(user, hash) && Fits(Chunks(file), user, hash)
    ensures Chunks(SetHash(file, user, hash)) == SetLines(Chunks(file), user, hash)
    ensures WellFormed(SetHash(file, user, hash))
  {
    SetLinesAreLines(Chunks(file), user, hash);
    ChunksOfLines(SetLines(Chunks(file), user, hash));
  }

  // ---- Round trip and frame ----

  lemma {:induction false} LookupConcat(a: seq<string>, b: seq<string>, user: string, hashlen: nat)
    requires hashlen > 0
    ensures LookupIn(a + b, user, hashlen) ==
            if Listed(a, user) then LookupIn(a, user, hashlen) else LookupIn(b, user, hashlen)
  {
    if a == [] {
      assert a + b == b;
    } else {
      assert (a + b)[1..] == a[1..] + b;
      LookupConcat(a[1..], b, user, hashlen);
    }
  }

  lemma RewriteKeepsName(line: string, user: string, hash: string, other: string)
    requires Writable(user, hash)
    ensures Named(Rewrite(line, user, hash), other) == Named(line, other)
  {
    EntryFields(user, hash, Aging(line));
  }

  /** Rewriting keeps every name, gives `user` the hash, and keeps what others read. */
  lemma {:induction false} LookupRewritten(ls: seq<string>, user: string, hash: string, other: string, hashlen: nat)
    requires Writable(user, hash) && hashlen > |hash|
    ensures Listed(RewriteAll(ls, user, hash), other) == Listed(ls, other)
    ensures LookupIn(RewriteAll(ls, user, hash), other, hashlen) ==
            if other != user then LookupIn(ls, other, hashlen)
            else if Listed(ls, user) then Some(hash) else None
  {
    hide Entry, Aging;
    if ls != [] {
      LookupRewritten(ls[1..], user, hash, other, hashlen);
      RewriteKeepsName(ls[0], user, hash, other);
      EntryFields(user, hash, Aging(ls[0]));
    }
  }

  lemma LookupSetLines(ls: seq<string>, user: string, hash: string, other: string, hashlen: nat)
    requires Writable(user, hash) && hashlen > |hash|
    ensures LookupIn(SetLines(ls, user, hash), other, hashlen) ==
            if other == user then Some(hash) else LookupIn(ls, other, hashlen)
    ensures Listed(SetLines(ls, user, hash), other) <==> other == user || Listed(ls, other)
  {
    hide Entry;
    LookupRewritten(ls, user, hash, other, hashlen);
    LookupConcat(RewriteAll(ls, user, hash), Appended(ls, user, hash), other, hashlen);
    EntryFields(user, hash, AGING);
    ListedConcat(RewriteAll(ls, user, hash), Appended(ls, user, hash), other);
    NotListedNone(ls, other, hashlen);
  }

  lemma {:induction false} RewriteUnlisted(ls: seq<string>, user: string, hash: string)
    requires !Listed(ls, user)
    ensures RewriteAll(ls, user, hash) == ls
  {
    if ls != [] {
      RewriteUnlisted(ls[1..], user, hash);
    }
  }

  lemma {:induction false} NotListedNone(ls: seq<string>, user: string, hashlen: nat)
    requires hashlen > 0
    ensures !Listed(ls, user) ==> LookupIn(ls, user, hashlen) == None
  {
    if ls != [] {
      NotListedNone(ls[1..], user, hashlen);
    }
  }

  /**
    After an update the user reads the new hash, and every other name reads what it
    read before, absent names included.
   */
  lemma SetThenLookup(file: string, user: string, hash: string, other: string, hashlen: nat)
    requires WellFormed(file) && Writable(user, hash) && Fits(Chunks(file), user, hash)
    requires hashlen > |hash|
    ensures Lookup(SetHash(file, user, hash), user, hashlen) == Some(hash)
    ensures other != user ==> Lookup(SetHash(file, user, hash), other, hashlen) == Lookup(file, other, hashlen)
  {
    SetHashChunks(file, user, hash);
    LookupSetLines(Chunks(file), user, hash, user, hashlen);
    LookupSetLines(Chunks(file), user, hash, other, hashlen);
  }

  // ---- Algebra ----

  lemma RewriteTwice(line: string, user: string, first: string, second: string)
    requires IsLine(line) && Writable(user, first) && Writable(user, second)
    ensures Rewrite(Rewrite(line, user, first), user, second) == Rewrite(line, user, second)
  {
    hide Named, Entry, Aging;
    AgingIsText(line);
    RewriteKeepsName(line, user, first, user);
    AgingOfEntry(user, first, Aging(line));
  }

  lemma RewriteCommutes(line: string, u1: string, h1: string, u2: string, h2: string)
    requires Writable(u1, h1) && Writable(u2, h2) && u1 != u2
    ensures Rewrite(Rewrite(line, u1, h1), u2, h2) == Rewrite(Rewrite(line, u2, h2), u1, h1)
  {
    hide Entry, Aging;
    RewriteKeepsName(line, u1, h1, u2);
    RewriteKeepsName(line, u2, h2, u1);
  }

  lemma {:induction false} RewriteAllConcat(a: seq<string>, b: seq<string>, user: string, hash: string)
    ensures RewriteAll(a + b, user, hash) == RewriteAll(a, user, hash) + RewriteAll(b, user, hash)
  {
    hide Rewrite;
    if a == [] {
      assert a + b == b;
    } else {
      RewriteAllConcat(a[1..], b, user, hash);
      assert (a + b)[1..] == a[1..] + b;
    }
  }

  lemma {:induction false} RewriteAllTwice(ls: seq<string>, user: string, first: string, second: string)
    requires AllLines(ls) && Writable(user, first) && Writable(user, second)
    ensures RewriteAll(RewriteAll(ls, user, first), user, second) == RewriteAll(ls, user, second)
  {
    hide Rewrite, IsLine;
    if ls != [] {
      RewriteTwice(ls[0], user, first, second);
      RewriteAllTwice(ls[1..], user, first, second);
    }
  }

  lemma {:induction false} RewriteAllCommutes(ls: seq<string>, u1: string, h1: string, u2: string, h2: string)
    requires Writable(u1, h1) && Writable(u2, h2) && u1 != u2
    ensures RewriteAll(RewriteAll(ls, u1, h1), u2, h2) == RewriteAll(RewriteAll(ls, u2, h2), u1, h1)
  {
    hide Rewrite;
    if ls != [] {
      RewriteCommutes(ls[0], u1, h1, u2, h2);
      RewriteAllCommutes(ls[1..], u1, h1, u2, h2);
    }
  }

  lemma {:induction false} RewriteAllAt(ls: seq<string>, user: string, hash: string, i: nat)
    requires i < |ls|
    ensures |RewriteAll(ls, user, hash)| == |ls| && RewriteAll(ls, user, hash)[i] == Rewrite(ls[i], user, hash)
  {
    hide Rewrite;
    RewriteAllLength(ls, user, hash);
    if i > 0 {
      RewriteAllAt(ls[1..], user, hash, i - 1);
    }
  }

  /** An entry just appended is rewritten like any other. */
  lemma RewriteAppended(ls: seq<string>, user: string, first: string, other: string, second: string)
    requires Writable(user, first) && Writable(other, second)
    ensures RewriteAll(Appended(ls, user, first), other, second) ==
            Appended(ls, user, if other == user then second else first)
  {
    hide Entry, Aging;
    EntryFields(user, first, AGING);
    AgingOfEntry(user, first, AGING);
  }

  lemma SetLinesTwice(ls: seq<string>, user: string, first: string, second: string)
    requires AllLines(ls) && Writable(user, first) && Writable(user, second)
    ensures SetLines(SetLines(ls, user, first), user, second) == SetLines(ls, user, second)
  {
    hide RewriteAll, AllLines;
    LookupSetLines(ls, user, first, user, |first| + 1);
    RewriteAllConcat(RewriteAll(ls, user, first), Appended(ls, user, first), user, second);
    RewriteAllTwice(ls, user, first, second);
    RewriteAppended(ls, user, first, user, second);
  }

  /** The last of two updates of one user wins; with equal hashes, updating twice is updating once. */
  lemma SetHashTwice(file: string, user: string, first: string, second: string)
    requires WellFormed(file) && Writable(user, first) && Writable(user, second)
    requires Fits(Chunks(file), user, first)
    ensures SetHash(SetHash(file, user, first), user, second) == SetHash(file, user, second)
  {
    SetHashChunks(file, user, first);
    SetLinesTwice(Chunks(file), user, first, second);
  }

  lemma TwoUpdatesAre(ls: seq<string>, u1: string, h1: string, u2: string, h2: string)
    requires Writable(u1, h1) && Writable(u2, h2) && u1 != u2
    ensures SetLines(SetLines(ls, u1, h1), u2, h2) ==
            RewriteAll(RewriteAll(ls, u1, h1), u2, h2) + (Appended(ls, u1, h1) + Appended(ls, u2, h2))
  {
    hide RewriteAll;
    LookupSetLines(ls, u1, h1, u2, |h1| + 1);
    RewriteAllConcat(RewriteAll(ls, u1, h1), Appended(ls, u1, h1), u2, h2);
    RewriteAppended(ls, u1, h1, u2, h2);
  }

  lemma EntriesDiffer(u1: string, h1: string, u2: string, h2: string)
    requires Writable(u1, h1) && Writable(u2, h2) && u1 != u2
    ensures Entry(u1, h1, AGING) != Entry(u2, h2, AGING)
  {
    hide Entry;
    EntryFields(u1, h1, AGING);
    EntryFields(u2, h2, AGING);
  }

  lemma SetLinesCommute(ls: seq<string>, u1: string, h1: string, u2: string, h2: string)
    requires Writable(u1, h1) && Writable(u2, h2) && u1 != u2
    ensures SetLines(SetLines(ls, u1, h1), u2, h2) == SetLines(SetLines(ls, u2, h2), u1, h1) <==>
            Listed(ls, u1) || Listed(ls, u2)
  {
    hide RewriteAll, Entry, Listed;
    TwoUpdatesAre(ls, u1, h1, u2, h2);
    TwoUpdatesAre(ls, u2, h2, u1, h1);
    RewriteAllCommutes(ls, u1, h1, u2, h2);
    EntriesDiffer(u1, h1, u2, h2);
    var common := RewriteAll(RewriteAll(ls, u1, h1), u2, h2);
    var e1, e2 := Appended(ls, u1, h1), Appended(ls, u2, h2);
    assert (common + (e1 + e2))[|common|..] == e1 + e2;
    assert (common + (e2 + e1))[|common|..] == e2 + e1;
    if e1 != [] && e2 != [] {
      assert (e1 + e2)[0] == e1[0] && (e2 + e1)[0] == e2[0];
    } else {
      assert e1 + e2 == e2 + e1;
    }
  }

  /**
    Updates of two different users give the same file in both orders exactly when
    one of them was already listed: two appended entries keep the order of the calls.
   */
  lemma SetHashCommutes(file: string, u1: string, h1: string, u2: string, h2: string)
    requires WellFormed(file) && Writable(u1, h1) && Writable(u2, h2) && u1 != u2
    requires Fits(Chunks(file), u1, h1) && Fits(Chunks(file), u2, h2)
    requires Fits(SetLines(Chunks(file), u1, h1), u2, h2) && Fits(SetLines(Chunks(file), u2, h2), u1, h1)
    ensures SetHash(SetHash(file, u1, h1), u2, h2) == SetHash(SetHash(file, u2, h2), u1, h1) <==>
            Listed(Chunks(file), u1) || Listed(Chunks(file), u2)
  {
    SetHashChunks(file, u1, h1);
    SetHashChunks(file, u2, h2);
    SetHashChunks(SetHash(file, u1, h1), u2, h2);
    SetHashChunks(SetHash(file, u2, h2), u1, h1);
    SetLinesCommute(Chunks(file), u1, h1, u2, h2);
  }

  lemma {:induction false} EolCut(s: string) returns (cut: string)
    ensures s == StripEol(s) + cut && forall c :: c in cut ==> c == '\r' || c == '\n'
  {
    if s != "" && (s[|s| - 1] == '\n' || s[|s| - 1] == '\r') {
      cut := EolCut(s[..|s| - 1]);
      cut := cut + [s[|s| - 1]];
    } else {
      cut := "";
    }
  }

  lemma AgingParts(line: string) returns (kept: string, cut: string)
    ensures kept == Aging(line) && (kept == "" || kept[|kept| - 1] !in {'\r', '\n'})
    ensures if AfterColons(line, 2).Some? && AfterColons(line, 2).value != "" then AfterColons(line, 2).value == kept + cut
            else kept == "0:0:99999:7:::"
    ensures forall c :: c in cut ==> c == '\r' || c == '\n'
  {
    hide AfterColons;
    kept, cut := Aging(line), "";
    if AfterColons(line, 2).Some? && AfterColons(line, 2).value != "" {
      cut := EolCut(AfterColons(line, 2).value);
    } else {
      assert kept == "0:0:99999:7:::" && kept[|kept| - 1] == ':';
    }
  }

  /**
    Line by line: an update leaves the lines of other names. A line of the user gets the new hash and keeps what stands
    behind the second colon, `kept`, up to the CR and LF at its end, `cut`; where nothing stands it gets the default.
   */
  lemma AgingSurvives(file: string, user: string, hash: string, i: nat) returns (kept: string, cut: string)
    requires WellFormed(file) && Writable(user, hash) && Fits(Chunks(file), user, hash)
    requires i < |Chunks(file)|
    ensures i < |Chunks(SetHash(file, user, hash))|
    ensures var before, after := Chunks(file)[i], Chunks(SetHash(file, user, hash))[i];
            if !Named(before, user) then after == before
            else
              && after == user + ":" + hash + ":" + kept + "\n"
              && (if AfterColons(before, 2).Some? && AfterColons(before, 2).value != ""
                  then AfterColons(before, 2).value == kept + cut
                  else kept == "0:0:99999:7:::")
    ensures (forall c :: c in cut ==> c == '\r' || c == '\n') && (kept == "" || kept[|kept| - 1] !in {'\r', '\n'})
  {
    SetHashChunks(file, user, hash);
    hide Named, AfterColons, Aging, SetHash, Chunks, Fits, WellFormed;
    RewriteAllAt(Chunks(file), user, hash, i);
    kept, cut := AgingParts(Chunks(file)[i]);
  }

  /** Of several lines of a user the first decides, whatever it holds. */
  lemma {:induction false} FirstEntryDecides(ls: seq<string>, user: string, hashlen: nat, i: nat)
    requires hashlen > 0 && i < |ls| && Named(ls[i], user) && forall j :: 0 <= j < i ==> !Named(ls[j], user)
    ensures LookupIn(ls, user, hashlen) == Field(ls[i], 1, hashlen)
  {
    hide Named, Field;
    if i > 0 {
      assert forall j :: 0 <= j < i - 1 ==> ls[1..][j] == ls[j + 1];
      FirstEntryDecides(ls[1..], user, hashlen, i - 1);
    }
  }

  lemma {:induction false} NoEntry(ls: seq<string>, user: string, hashlen: nat)
    requires hashlen > 0 && forall j :: 0 <= j < |ls| ==> !Named(ls[j], user)
    ensures LookupIn(ls, user, hashlen) == None
  {
    hide Named;
    if ls != [] {
      assert forall j :: 0 <= j < |ls| - 1 ==> ls[1..][j] == ls[j + 1];
      NoEntry(ls[1..], user, hashlen);
    }
  }

  // ---- A file whose last line has no newline ----

  lemma UnterminatedListed(ls: seq<string>, last: string, user: string, hash: string, hashlen: nat)
    requires AllLines(ls) && last != "" && '\n' !in last && |last| <= LINE_ROOM
    requires Writable(user, hash) && hashlen > |hash|
    requires RewrittenFit(ls, user, hash) && |Rewrite(last, user, hash)| <= LINE_ROOM
    requires Listed(ls + [last], user)
    requires Chunks(Flatten(ls) + last) == ls + [last]
    ensures Lookup(SetHash(Flatten(ls) + last, user, hash), user, hashlen) == Some(hash)
  {
    hide Rewrite, Listed;
    var body, tail := RewriteAll(ls, user, hash), Rewrite(last, user, hash);
    var all := ls + [last];
    RewriteAllConcat(ls, [last], user, hash);
    assert RewriteAll([last], user, hash) == [tail];
    assert SetLines(all, user, hash) == body + [tail];
    FlattenConcat(body, [tail]);
    FlattenOne(tail);
    RewriteAllLines(ls, user, hash);
    ChunksAfterLines(body, tail);
    TailChunk(last, user, hash);
    LookupSetLines(all, user, hash, user, hashlen);
  }

  /** Nothing is rewritten, and the new entry continues the unfinished line. */
  lemma AppendsToLast(ls: seq<string>, last: string, user: string, hash: string)
    requires !Listed(ls + [last], user)
    requires Chunks(Flatten(ls) + last) == ls + [last]
    ensures SetHash(Flatten(ls) + last, user, hash) == Flatten(ls) + (last + Entry(user, hash, AGING))
  {
    hide Entry, Named;
    var e := Entry(user, hash, AGING);
    RewriteUnlisted(ls + [last], user, hash);
    assert SetLines(ls + [last], user, hash) == ls + [last, e];
    FlattenConcat(ls, [last, e]);
    FlattenTwo(last, e);
  }

  lemma MergedLookup(ls: seq<string>, merged: string, user: string, hashlen: nat)
    requires AllLines(ls) && !Listed(ls, user) && IsLine(merged) && hashlen > 0
    ensures Lookup(Flatten(ls) + merged, user, hashlen) ==
            if Named(merged, user) then Field(merged, 1, hashlen) else None
  {
    hide Named, IsLine;
    ChunksAfterLines(ls, merged);
    ChunksCons(merged, "");
    assert merged + "" == merged;
    assert Chunks(Flatten(ls) + merged) == ls + [merged];
    LookupConcat(ls, [merged], user, hashlen);
    assert LookupIn([merged], user, hashlen) ==
           if Named(merged, user) then Field(merged, 1, hashlen) else LookupIn([merged][1..], user, hashlen);
  }

  /** The unfinished line and the new name, cut to the name buffer, are the name: it begins with that line over and over. */
  predicate Overlaps(last: string, user: string) {
    |user| == NAME_MAX - 1 && Safe(last) && (last + user)[..NAME_MAX - 1] == user
  }

  /**
    On a file that ends in the middle of a line, the update is read back exactly when
    the user was already listed: an appended entry lands on the unfinished line. The one
    exception is a name that fills its buffer and overlaps itself at that line.
   */
  lemma UnterminatedRoundTrip(ls: seq<string>, last: string, user: string, hash: string, hashlen: nat)
    requires AllLines(ls) && last != "" && '\n' !in last
    requires Writable(user, hash) && hashlen > |hash|
    requires |last + Entry(user, hash, AGING)| <= LINE_ROOM
    requires RewrittenFit(ls, user, hash) && |Rewrite(last, user, hash)| <= LINE_ROOM
    ensures var file := Flatten(ls) + last;
            Lookup(SetHash(file, user, hash), user, hashlen) == Some(hash) <==>
            Listed(Chunks(file), user) || Overlaps(last, user)
  {
    hide Overlaps, Entry, Named, Rewrite, SetHash, Lookup, RewrittenFit, Chunks, AGING;
    ChunksAfterLines(ls, last);
    LoneChunk(last);
    if Listed(ls + [last], user) {
      UnterminatedListed(ls, last, user, hash, hashlen);
    } else {
      ListedConcat(ls, [last], user);
      UnterminatedUnlisted(ls, last, user, hash, hashlen);
    }
  }

  lemma UnterminatedUnlisted(ls: seq<string>, last: string, user: string, hash: string, hashlen: nat)
    requires AllLines(ls) && last != "" && '\n' !in last && !Listed(ls, user) && !Named(last, user)
    requires Writable(user, hash) && hashlen > |hash| && |last + Entry(user, hash, AGING)| <= LINE_ROOM
    requires !Listed(ls + [last], user) && Chunks(Flatten(ls) + last) == ls + [last]
    ensures Lookup(SetHash(Flatten(ls) + last, user, hash), user, hashlen) == Some(hash) <==> Overlaps(last, user)
  {
    hide Entry, Named, Lookup, SetHash, AGING;
    AppendsToLast(ls, last, user, hash);
    MergedIsLine(last, user, hash);
    MergedNamed(last, user, hash);
    if Overlaps(last, user) {
      MergedHash(last, user, hash, hashlen);
    }
    hide Overlaps;
    MergedLookup(ls, last + Entry(user, hash, AGING), user, hashlen);
  }

  lemma LoneChunk(s: string)
    requires s != "" && '\n' !in s && |s| <= LINE_ROOM
    ensures Chunks(s) == [s]
  {
    assert s[ChunkLen(s, LINE_ROOM) - 1] in s;
    assert s[..|s|] == s && s[|s|..] == "";
  }

  lemma TailChunk(last: string, user: string, hash: string)
    requires last != "" && '\n' !in last && Writable(user, hash)
    requires |last| <= LINE_ROOM && |Rewrite(last, user, hash)| <= LINE_ROOM
    ensures Chunks(Rewrite(last, user, hash)) == [Rewrite(last, user, hash)]
  {
    if Named(last, user) {
      AfterColonsSuffix(last, 2);
      var aging := Aging(last);
      assert '\n' !in aging;
      EntryIsLine(user, hash, aging);
      ChunksCons(Entry(user, hash, aging), "");
      assert Entry(user, hash, aging) + "" == Entry(user, hash, aging);
    } else {
      LoneChunk(last);
    }
  }

  lemma MergedIsLine(last: string, user: string, hash: string)
    requires '\n' !in last && Writable(user, hash) && |last + Entry(user, hash, AGING)| <= LINE_ROOM
    ensures IsLine(last + Entry(user, hash, AGING))
  {
    var e := Entry(user, hash, AGING);
    EntryIsLine(user, hash, AGING);
    var m := last + e;
    hide Entry;
    assert m[..|m| - 1] == last + e[..|e| - 1];
  }

  /** The merged line's name is the one field text of the unfinished line, or runs on into the new name. */
  lemma MergedNamed(last: string, user: string, hash: string)
    requires last != "" && '\n' !in last && !Named(last, user) && Writable(user, hash)
    ensures Named(last + Entry(user, hash, AGING), user) <==> Overlaps(last, user)
  {
    var rest := ":" + hash + ":" + AGING + "\n";
    var m := last + Entry(user, hash, AGING);
    assert m == (last + user) + rest;
    if Safe(last) {
      FieldTextOf(last + user, rest, NAME_MAX - 1);
      FieldTextOf(last, "", NAME_MAX - 1);
      assert last + "" == last;
      var n := if |last + user| < NAME_MAX - 1 then |last + user| else NAME_MAX - 1;
      assert |(last + user)[..n]| == n;
    } else {
      CutBefore(last, user + rest, NAME_MAX - 1);
      assert m == last + (user + rest);
    }
  }

  /** A line with the end of a field in it has its first field before what is appended. */
  lemma {:induction false} CutBefore(s: string, more: string, room: nat)
    requires !Safe(s)
    ensures FieldText(s + more, room) == FieldText(s, room)
  {
    assert s != "";
    assert (s + more)[0] == s[0];
    if !EndsField(s[0]) && room > 0 {
      assert (s + more)[1..] == s[1..] + more;
      assert Safe(s[1..]) ==> Safe(s) by {
        assert s == [s[0]] + s[1..];
      }
      CutBefore(s[1..], more, room - 1);
    }
  }

  lemma MergedHash(last: string, user: string, hash: string, hashlen: nat)
    requires Safe(last) && Writable(user, hash) && hashlen > |hash|
    ensures Field(last + Entry(user, hash, AGING), 1, hashlen) == Some(hash)
  {
    var tail := ":" + AGING + "\n";
    assert last + Entry(user, hash, AGING) == (last + user) + ":" + (hash + tail);
    AfterFirstColon(last + user, hash + tail, 1);
    FieldTextOf(hash, tail, hashlen - 1);
    assert hash[..|hash|] == hash;
  }

  /** The name of 63 letters `a` after an unfinished line "a" is read back, one of 62 is not. */
  lemma LongNameOverlaps()
    ensures Overlaps("a", seq(NAME_MAX - 1, _ => 'a')) && !Overlaps("a", seq(NAME_MAX - 2, _ => 'a'))
  {
    var user := seq(NAME_MAX - 1, _ => 'a');
    assert ("a" + user)[..NAME_MAX - 1] == user;
  }
}
