/** services/ir0_firstboot.c: the seed file that answers the first-boot questions. */
module FirstbootSeed {
  import opened Text
  import opened Fields
  import opened Shadow
  import opened Accounts
  import opened Firstboot

  /** `char line[256]` */
  const SEED_ROOM: nat := 255
  const HOST_MAX: nat := 64

  /** Up to the first CR or LF. */
  function CutEol(s: string): (t: string)
    ensures t <= s && '\r' !in t && '\n' !in t
  {
    if s == "" || s[0] == '\r' || s[0] == '\n' then "" else [s[0]] + CutEol(s[1..])
  }

  predicate On(val: string) {
    val != "" && (val[0] == '1' || val[0] == 'y' || val[0] == 'Y')
  }

  /** One assignment: values that do not fit their buffer are cut. */
  function Assigned(s: Setup, key: string, val: string): Setup {
    if key == "username" then s.(user := Snprintf(val, NAME_MAX))
    else if key == "hostname" then s.(host := Snprintf(val, HOST_MAX))
    else if key == "password_hash" then s.(hash := Snprintf(val, HASH_MAX))
    else if key == "wheel" then s.(wheel := On(val))
    else if key == "lock_root" then s.(lockRoot := On(val))
    else if key == "recovery" then s.(recovery := On(val))
    else s
  }

  function SeedLine(line: string, s: Setup): Setup {
    var at := EqualsAt(line);
    if line == "" || line[0] == '#' || line[0] == '\n' || at == |line| then s
    else Assigned(s, line[..at], CutEol(line[at + 1..]))
  }

  function SeedFrom(text: string, s: Setup): Setup
    decreases |text|
  {
    if text == "" then s
    else var n := ChunkLen(text, SEED_ROOM); SeedFrom(text[n..], SeedLine(text[..n], s))
  }

  const DEFAULTS := Setup("", "ir0", "", true, true, true)

  /** What `apply_seed_file` makes of a file: nothing without a valid user and some hash. */
  function SeedOf(file: Option<string>): Seed {
    if file.None? then BadSeed
    else
      var s := SeedFrom(file.value, DEFAULTS);
      if !ValidUsername(s.user) || s.hash == "" then BadSeed else GoodSeed(s)
  }

  method ReadSeed(file: Option<string>) returns (seed: Seed)
    ensures seed == SeedOf(file)
  {
    hide SeedLine, ValidUsername;
    if file.None? {
      return BadSeed;
    }
    var s := DEFAULTS;
    var text := file.value;
    while text != ""
      invariant SeedFrom(text, s) == SeedFrom(file.value, DEFAULTS)
      decreases |text|
    {
      var n := ChunkLen(text, SEED_ROOM);
      s := SeedLine(text[..n], s);
      text := text[n..];
    }
    var valid := CheckUsername(s.user);
    if !valid || s.hash == "" {
      return BadSeed;
    }
    return GoodSeed(s);
  }

  // ---- Whatever the file holds, the setup fits ----

  predicate FitsBuffers(s: Setup) {
    |s.user| < NAME_MAX && |s.host| < HOST_MAX && |s.hash| < HASH_MAX
  }

  lemma AssignedFits(s: Setup, key: string, val: string)
    requires FitsBuffers(s)
    ensures FitsBuffers(Assigned(s, key, val))
  {
    hide On;
  }

  lemma {:induction false} SeedFromFits(text: string, s: Setup)
    requires FitsBuffers(s)
    ensures FitsBuffers(SeedFrom(text, s))
    decreases |text|
  {
    if text != "" {
      var n := ChunkLen(text, SEED_ROOM);
      var at := EqualsAt(text[..n]);
      if at < n {
        AssignedFits(s, text[..n][..at], CutEol(text[..n][at + 1..]));
      }
      hide Assigned, FitsBuffers;
      SeedFromFits(text[n..], SeedLine(text[..n], s));
    }
  }

  /** Every file, well formed or not, gives either no setup or one that `write_accounts` can hold. */
  lemma SeedAlwaysOk(file: Option<string>)
    ensures SeedOk(SeedOf(file))
  {
    hide ValidUsername;
    if file.Some? {
      SeedFromFits(file.value, DEFAULTS);
    }
  }

  // ---- What a seed file of whole lines says ----

  /** A line of a seed file: a key and its value, with what may stand behind a CR, or a line without an assignment. */
  datatype SeedEntry = Assign(key: string, val: string, tail: string) | Note(text: string)

  predicate EntryOk(e: SeedEntry) {
    match e
    case Assign(key, val, tail) =>
      && (key == "" || key[0] != '#') && '=' !in key && '\n' !in key && '\r' !in val && '\n' !in val && '\n' !in tail
      && (tail == "" || tail[0] == '\r') && |key| + |val| + |tail| + 2 <= SEED_ROOM
    case Note(text) =>
      '\n' !in text && |text| < SEED_ROOM && (text == "" || text[0] == '#' || '=' !in text)
  }

  function EntryLine(e: SeedEntry): string {
    match e
    case Assign(key, val, tail) => key + "=" + val + tail
    case Note(text) => text
  }

  function SeedFile(es: seq<SeedEntry>): string {
    if es == [] then "" else EntryLine(es[0]) + "\n" + SeedFile(es[1..])
  }

  /** The last value given for a key. */
  function LastVal(es: seq<SeedEntry>, key: string): Option<string> {
    if es == [] then None
    else
      var later := LastVal(es[1..], key);
      if later == None && es[0].Assign? && es[0].key == key then Some(es[0].val) else later
  }

  predicate AllEntriesOk(es: seq<SeedEntry>) {
    es == [] || (EntryOk(es[0]) && AllEntriesOk(es[1..]))
  }

  lemma {:induction false} CutEolAt(val: string, rest: string)
    requires '\r' !in val && '\n' !in val && rest != "" && (rest[0] == '\r' || rest[0] == '\n')
    ensures CutEol(val + rest) == val
  {
    if val == "" {
      assert val + rest == rest;
    } else {
      assert val[0] in val && forall c :: c in val[1..] ==> c in val;
      assert (val + rest)[1..] == val[1..] + rest;
      CutEolAt(val[1..], rest);
    }
  }

  lemma {:induction false} NoEquals(s: string)
    requires '=' !in s
    ensures EqualsAt(s) == |s|
  {
    if s != "" {
      assert s[0] in s && forall c :: c in s[1..] ==> c in s;
      NoEquals(s[1..]);
    }
  }

  lemma AssignSays(key: string, val: string, tail: string, s: Setup)
    requires EntryOk(Assign(key, val, tail))
    ensures SeedLine(key + "=" + val + tail + "\n", s) == Assigned(s, key, val)
  {
    var more := val + (tail + "\n");
    assert key + "=" + val + tail + "\n" == key + ("=" + more);
    CutEolAt(val, tail + "\n");
    hide Assigned, CutEol;
    KeySplits(key, more, s);
  }

  lemma KeySplits(key: string, more: string, s: Setup)
    requires (key == "" || key[0] != '#') && '=' !in key && '\n' !in key
    ensures SeedLine(key + ("=" + more), s) == Assigned(s, key, CutEol(more))
  {
    hide Assigned, CutEol, EqualsAt;
    var line := key + ("=" + more);
    EqualsAtIs(key, "=" + more);
    assert line[..|key|] == key && line[|key| + 1..] == more;
    if key != "" {
      assert line[0] == key[0] && key[0] in key;
    }
  }

  lemma EntrySays(e: SeedEntry, s: Setup)
    requires EntryOk(e)
    ensures SeedLine(EntryLine(e) + "\n", s) == if e.Assign? then Assigned(s, e.key, e.val) else s
  {
    match e
    case Assign(key, val, tail) =>
      AssignSays(key, val, tail, s);
    case Note(text) =>
      hide Assigned, CutEol;
      if text != "" && text[0] != '#' {
        NoEquals(text + "\n");
      }
  }

  lemma EntryIsLine(e: SeedEntry)
    requires EntryOk(e)
    ensures '\n' !in EntryLine(e) && |EntryLine(e)| < SEED_ROOM
  {
  }

  lemma SeedFileStep(es: seq<SeedEntry>, s: Setup)
    requires es != [] && EntryOk(es[0])
    ensures var next := if es[0].Assign? then Assigned(s, es[0].key, es[0].val) else s;
            SeedFrom(SeedFile(es), s) == SeedFrom(SeedFile(es[1..]), next)
  {
    var line, rest := EntryLine(es[0]), SeedFile(es[1..]);
    var text := line + "\n" + rest;
    assert SeedFile(es) == text;
    EntryIsLine(es[0]);
    EntrySays(es[0], s);
    hide SeedLine, Assigned, EntryOk, EntryLine, ChunkLen, SeedFile;
    LineChunk(line, rest);
    assert text[..|line| + 1] == line + "\n" && text[|line| + 1..] == rest;
  }

  lemma {:induction false} TextsFrom(es: seq<SeedEntry>, s: Setup)
    requires AllEntriesOk(es)
    ensures var r := SeedFrom(SeedFile(es), s);
            && r.user == (match LastVal(es, "username") case None => s.user case Some(v) => Snprintf(v, NAME_MAX))
            && r.host == (match LastVal(es, "hostname") case None => s.host case Some(v) => Snprintf(v, HOST_MAX))
            && r.hash == (match LastVal(es, "password_hash") case None => s.hash case Some(v) => Snprintf(v, HASH_MAX))
    decreases |es|
  {
    hide SeedFrom, SeedFile, Assigned, EntryOk, Snprintf, On;
    if es == [] {
      NoLines(s);
    } else {
      SeedFileStep(es, s);
      if es[0].Assign? {
        AssignedFields(s, es[0].key, es[0].val);
      }
      TextsFrom(es[1..], if es[0].Assign? then Assigned(s, es[0].key, es[0].val) else s);
    }
  }

  lemma {:induction false} FlagsFrom(es: seq<SeedEntry>, s: Setup)
    requires AllEntriesOk(es)
    ensures var r := SeedFrom(SeedFile(es), s);
            && r.wheel == (match LastVal(es, "wheel") case None => s.wheel case Some(v) => On(v))
            && r.lockRoot == (match LastVal(es, "lock_root") case None => s.lockRoot case Some(v) => On(v))
            && r.recovery == (match LastVal(es, "recovery") case None => s.recovery case Some(v) => On(v))
    decreases |es|
  {
    hide SeedFrom, SeedFile, Assigned, EntryOk, Snprintf, On;
    if es == [] {
      NoLines(s);
    } else {
      SeedFileStep(es, s);
      if es[0].Assign? {
        AssignedFields(s, es[0].key, es[0].val);
      }
      FlagsFrom(es[1..], if es[0].Assign? then Assigned(s, es[0].key, es[0].val) else s);
    }
  }

  lemma NoLines(s: Setup)
    ensures SeedFrom(SeedFile([]), s) == s
  {
  }

  lemma AssignedFields(s: Setup, key: string, val: string)
    ensures var r := Assigned(s, key, val);
            && r.user == (if key == "username" then Snprintf(val, NAME_MAX) else s.user)
            && r.host == (if key == "hostname" then Snprintf(val, HOST_MAX) else s.host)
            && r.hash == (if key == "password_hash" then Snprintf(val, HASH_MAX) else s.hash)
            && r.wheel == (if key == "wheel" then On(val) else s.wheel)
            && r.lockRoot == (if key == "lock_root" then On(val) else s.lockRoot)
            && r.recovery == (if key == "recovery" then On(val) else s.recovery)
  {
    hide Snprintf, On;
    assert |"username"| == |"hostname"| == |"recovery"| == 8 && |"password_hash"| == 13 && |"wheel"| == 5;
    assert |"lock_root"| == 9 && "username"[0] == 'u' && "hostname"[0] == 'h' && "recovery"[0] == 'r';
  }

  /**
    A seed file of whole lines: of each key the last value counts, cut to its buffer, and a flag is on when that begins
    with 1, y or Y. Without a value the host is `ir0` and the flags are on; without a valid user or a hash there is no
    setup.
   */
  lemma SeedFileSays(es: seq<SeedEntry>)
    requires AllEntriesOk(es)
    ensures var user := Get(LastVal(es, "username"), ""); var hash := Get(LastVal(es, "password_hash"), "");
            var host := Get(LastVal(es, "hostname"), "ir0"); var wheel := Get(LastVal(es, "wheel"), "1");
            var lock := Get(LastVal(es, "lock_root"), "1"); var recovery := Get(LastVal(es, "recovery"), "1");
            var cutUser := user[..if |user| < 64 then |user| else 63];
            SeedOf(Some(SeedFile(es))) ==
            if hash == "" || !ValidUsername(cutUser) then BadSeed
            else GoodSeed(Setup(cutUser, host[..if |host| < 64 then |host| else 63],
                                hash[..if |hash| < 192 then |hash| else 191],
                                wheel != "" && wheel[0] in {'1', 'y', 'Y'}, lock != "" && lock[0] in {'1', 'y', 'Y'},
                                recovery != "" && recovery[0] in {'1', 'y', 'Y'}))
  {
    hide ValidUsername, SeedFrom, LastVal, SeedFile, AllEntriesOk;
    TextsFrom(es, DEFAULTS);
    FlagsFrom(es, DEFAULTS);
    assert "ir0"[..3] == "ir0" && ""[..0] == "" && "1"[0] == '1';
    SnprintfCuts(Get(LastVal(es, "username"), ""), NAME_MAX);
    SnprintfCuts(Get(LastVal(es, "hostname"), "ir0"), HOST_MAX);
    SnprintfCuts(Get(LastVal(es, "password_hash"), ""), HASH_MAX);
  }

  lemma SnprintfCuts(text: string, size: nat)
    requires size > 1
    ensures Snprintf(text, size) == text[..if |text| < size then |text| else size - 1]
    ensures Snprintf(text, size) == "" <==> text == ""
  {
    assert text[..|text|] == text;
  }

  // ---- A seed file written for a setup reads back as it ----

  function Flag(on: bool): string {
    if on then "1" else "0"
  }

  function KeyLine(key: string, val: string, rest: string): string {
    key + "=" + val + "\n" + rest
  }

  function FlagText(s: Setup): string {
    KeyLine("wheel", Flag(s.wheel), KeyLine("lock_root", Flag(s.lockRoot), KeyLine("recovery", Flag(s.recovery), "")))
  }

  function SeedText(s: Setup): string {
    KeyLine("username", s.user, KeyLine("hostname", s.host, KeyLine("password_hash", s.hash, FlagText(s))))
  }

  predicate OneLine(val: string) {
    '\r' !in val && '\n' !in val
  }

  lemma {:induction false} CutEolIs(val: string)
    requires OneLine(val)
    ensures CutEol(val + "\n") == val
  {
    if val != "" {
      assert val[0] in val && forall c :: c in val[1..] ==> c in val;
      assert (val + "\n")[1..] == val[1..] + "\n";
      CutEolIs(val[1..]);
    }
  }

  lemma LineChunk(line: string, rest: string)
    requires '\n' !in line && |line| < SEED_ROOM
    ensures ChunkLen(line + "\n" + rest, SEED_ROOM) == |line| + 1
  {
    var s := line + "\n" + rest;
    var n := ChunkLen(s, SEED_ROOM);
    assert s[|line|] == '\n';
    assert forall i | 0 <= i < |line| :: s[i] == line[i];
    assert forall i | 0 <= i < n - 1 :: s[i] == s[..n - 1][i];
  }

  lemma ReadAssignment(key: string, val: string, rest: string, s: Setup)
    requires key != "" && key[0] != '#' && '=' !in key && '\n' !in key && OneLine(val) && |key| + |val| < SEED_ROOM - 1
    ensures SeedFrom(KeyLine(key, val, rest), s) == SeedFrom(rest, Assigned(s, key, val))
  {
    hide Assigned, ChunkLen, SeedLine;
    var line := key + "=" + val;
    var text := line + "\n" + rest;
    LineChunk(line, rest);
    assert text[..|line| + 1] == line + "\n" && text[|line| + 1..] == rest;
    ReadLine(key, val, s);
  }

  lemma ReadLine(key: string, val: string, s: Setup)
    requires key != "" && key[0] != '#' && '=' !in key && '\n' !in key && OneLine(val)
    ensures SeedLine(key + "=" + val + "\n", s) == Assigned(s, key, val)
  {
    hide Assigned, CutEol, EqualsAt;
    var line := key + "=" + val + "\n";
    assert line == key + ("=" + val + "\n");
    EqualsAtIs(key, "=" + val + "\n");
    assert line[..|key|] == key && line[|key| + 1..] == val + "\n";
    CutEolIs(val);
    assert key[0] in key && line[0] == key[0];
  }

  /** For every setup with values of one line, the seed file written for it gives it back. */
  lemma SeedRoundTrip(s: Setup)
    requires SetupOk(s) && s.hash != "" && OneLine(s.host) && OneLine(s.hash)
    ensures SeedOf(Some(SeedText(s))) == GoodSeed(s)
  {
    assert OneLine(s.user) by {
      assert forall c :: c in s.user ==> NameChar(c) && c != '\r' && c != '\n';
    }
    assert |s.user| < NAME_MAX;
    ReadAll(s);
  }

  lemma AssignedTexts(s: Setup, val: string)
    ensures Assigned(s, "username", val) == s.(user := Snprintf(val, NAME_MAX))
    ensures Assigned(s, "hostname", val) == s.(host := Snprintf(val, HOST_MAX))
    ensures Assigned(s, "password_hash", val) == s.(hash := Snprintf(val, HASH_MAX))
  {
    hide Snprintf, On;
    assert |"username"| == |"hostname"| == 8 && |"password_hash"| == 13 && "username"[0] != "hostname"[0];
  }

  lemma FlagsAreOneLine()
    ensures forall on :: OneLine(Flag(on)) && |Flag(on)| == 1
  {
  }

  lemma AssignedFlags(s: Setup, on: bool)
    ensures Assigned(s, "wheel", Flag(on)) == s.(wheel := on)
    ensures Assigned(s, "lock_root", Flag(on)) == s.(lockRoot := on)
    ensures Assigned(s, "recovery", Flag(on)) == s.(recovery := on)
  {
    hide Snprintf;
    assert On("1") && !On("0");
    assert |"username"| == |"hostname"| == |"recovery"| == 8 && |"password_hash"| == 13 && |"wheel"| == 5;
    assert |"lock_root"| == 9 && "recovery"[0] != "username"[0] && "recovery"[0] != "hostname"[0];
  }

  lemma ReadAll(s: Setup)
    requires FitsBuffers(s) && OneLine(s.user) && OneLine(s.host) && OneLine(s.hash)
    ensures SeedFrom(SeedText(s), DEFAULTS) == s
  {
    var flags := FlagText(s);
    var s1 := DEFAULTS.(user := s.user);
    var s2 := s1.(host := s.host);
    var s3 := s2.(hash := s.hash);
    var t3 := KeyLine("password_hash", s.hash, flags);
    var t2 := KeyLine("hostname", s.host, t3);
    hide Assigned, FlagText, SeedFrom, KeyLine;
    AssignedTexts(DEFAULTS, s.user);
    AssignedTexts(s1, s.host);
    AssignedTexts(s2, s.hash);
    ReadKey("username", s.user, t2, DEFAULTS);
    ReadKey("hostname", s.host, t3, s1);
    ReadKey("password_hash", s.hash, flags, s2);
    ReadFlags(s, s3);
  }

  lemma ReadFlags(s: Setup, s3: Setup)
    requires s3 == s.(wheel := true, lockRoot := true, recovery := true)
    ensures SeedFrom(FlagText(s), s3) == s
  {
    var s4 := s3.(wheel := s.wheel);
    var s5 := s4.(lockRoot := s.lockRoot);
    var t6 := KeyLine("recovery", Flag(s.recovery), "");
    var t5 := KeyLine("lock_root", Flag(s.lockRoot), t6);
    assert SeedFrom("", s) == s;
    FlagsAreOneLine();
    hide Assigned, SeedFrom, Flag, KeyLine;
    AssignedFlags(s3, s.wheel);
    AssignedFlags(s4, s.lockRoot);
    AssignedFlags(s5, s.recovery);
    ReadKey("wheel", Flag(s.wheel), t5, s3);
    ReadKey("lock_root", Flag(s.lockRoot), t6, s4);
    ReadKey("recovery", Flag(s.recovery), "", s5);
  }

  lemma ReadKey(key: string, val: string, rest: string, before: Setup)
    requires key in ["username", "hostname", "password_hash", "wheel", "lock_root", "recovery"]
    requires OneLine(val) && |val| < HASH_MAX
    ensures SeedFrom(KeyLine(key, val, rest), before) == SeedFrom(rest, Assigned(before, key, val))
  {
    hide Assigned, SeedFrom, KeyLine;
    ReadAssignment(key, val, rest, before);
  }
}
