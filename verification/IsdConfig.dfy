/** scripts/isdconfig.py: reading, writing and validating the package configuration. */
module IsdConfig {
  import opened Fields
  import opened PyText

  type Config = map<string, string>

  // ---- parse_cfg ----

  function ParseLine(raw: string, data: Config): Config {
    var line := Strip(raw);
    if line == "" || line[0] == '#' || EqualsAt(line) == |line| then data
    else data[Strip(line[..EqualsAt(line)]) := Strip(line[EqualsAt(line) + 1..])]
  }

  function ParseFrom(text: string, data: Config): Config
    decreases |text|
  {
    if text == "" then data
    else
      var n := LineLen(text);
      var now := ParseLine(text[..n], data);
      if n == |text| then now else ParseFrom(text[n + 1..], now)
  }

  function Parse(text: string): Config {
    ParseFrom(text, map[])
  }

  method ParseCfg(file: Option<string>) returns (data: Config)
    ensures data == Parse(Get(file, ""))
  {
    data := map[];
    if file.None? {
      return;
    }
    var text := file.value;
    while text != ""
      invariant ParseFrom(text, data) == Parse(file.value)
      decreases |text|
    {
      var n := LineLen(text);
      data := ParseLine(text[..n], data);
      text := if n == |text| then "" else text[n + 1..];
    }
  }

  // ---- The known keys ----

  const CORE: seq<string> := ["BUSYBOX", "RUNIT"]
  const EXTRAS: seq<string> := ["NANO", "NCURSES", "OPENDOAS", "TINYCC", "GNUMAKE", "DOOM"]
  const PREFIX := "CONFIG_PKG_"
  const TOP_KEY := "CONFIG_APPLET_TOP"

  function PkgKey(short: string): string {
    PREFIX + short
  }

  function PkgKeys(shorts: seq<string>): seq<string> {
    seq(|shorts|, i requires 0 <= i < |shorts| => PkgKey(shorts[i]))
  }

  function Keys(): seq<string> {
    PkgKeys(CORE + EXTRAS) + [TOP_KEY]
  }

  function Default(key: string): string {
    if key == PkgKey("TINYCC") || key == PkgKey("GNUMAKE") || key == PkgKey("DOOM") then "n" else "y"
  }

  function ValueOf(data: Config, key: string): string {
    if key in data then data[key] else Default(key)
  }

  // ---- write_cfg ----

  // The comments are put together from short parts, which the proofs look through one by one.
  const TITLE := "# ISD package extras " + "(.isdconfig) \U{2014} " + "generated by " + "scripts/isdconfig.py"
  const CORE_NOTE := "# Core busybox/runit " + "always on. Profile " + "packages.txt = " + "mandatory set."
  const KEY_NOTE := "# CONFIG_PKG_* = " + "optional packages; " + "CONFIG_APPLET_* = " + "BusyBox links."
  const HEADER: seq<string> := [TITLE, CORE_NOTE, KEY_NOTE, ""]

  function KeyLines(keys: seq<string>, data: Config): seq<string> {
    if keys == [] then [] else [keys[0] + "=" + ValueOf(data, keys[0])] + KeyLines(keys[1..], data)
  }

  function Write(data: Config): string {
    Lines(HEADER + KeyLines(Keys(), data))
  }

  method WriteCfg(data: Config) returns (text: string)
    ensures text == Write(data)
  {
    hide Keys, ValueOf, HEADER, Lines;
    var keys := Keys();
    var lines := HEADER;
    var i := 0;
    assert keys[0..] == keys;
    while i < |keys|
      invariant 0 <= i <= |keys|
      invariant lines + KeyLines(keys[i..], data) == HEADER + KeyLines(keys, data)
    {
      var key := keys[i];
      assert keys[i..][1..] == keys[i + 1..];
      lines := lines + [key + "=" + ValueOf(data, key)];
      i := i + 1;
    }
    assert lines == lines + KeyLines(keys[i..], data);
    text := Lines(lines);
  }

  /** `ensure_defaults` */
  function EnsureDefaults(data: Config): Config {
    (map k | k in Keys() :: Default(k)) + data
  }

  /** The loops of setdefault calls, over the keys in order. */
  method FillDefaults(data: Config) returns (out: Config)
    ensures out == EnsureDefaults(data)
  {
    hide Keys, Default;
    var keys := Keys();
    out := data;
    var i := 0;
    while i < |keys|
      invariant 0 <= i <= |keys|
      invariant out == (map k | k in keys[..i] :: Default(k)) + data
    {
      assert keys[..i + 1] == keys[..i] + [keys[i]];
      if keys[i] !in out {
        out := out[keys[i] := Default(keys[i])];
      }
      i := i + 1;
    }
    assert keys[..i] == keys;
  }

  // ---- Writing, then parsing ----

  predicate KeyOk(key: string) {
    key != "" && key[0] != '#' && '=' !in key && forall c :: c in key ==> !Space(c) && !LineBreak(c)
  }

  lemma ParseOneLine(line: string, rest: string, data: Config)
    requires SingleLine(line)
    ensures ParseFrom(line + "\n" + rest, data) == ParseFrom(rest, ParseLine(line, data))
  {
    hide ParseLine;
    var text := line + "\n" + rest;
    assert text == line + ("\n" + rest);
    LineLenIs(line, "\n" + rest);
    assert text[..|line|] == line && text[|line| + 1..] == rest;
  }

  /** A written assignment is read back as it was. */
  lemma ParseAssignment(key: string, val: string, data: Config)
    requires KeyOk(key) && Trimmed(val)
    ensures ParseLine(key + "=" + val, data) == data[key := val]
  {
    hide KeyOk;
    var line := key + "=" + val;
    AssignmentTrimmed(key, val);
    StripNothing(line);
    StripNothing(key);
    StripNothing(val);
    assert line == key + ("=" + val);
    EqualsAtIs(key, "=" + val);
    assert line[..|key|] == key && line[|key| + 1..] == val;
  }

  lemma AssignmentTrimmed(key: string, val: string)
    requires KeyOk(key) && Trimmed(val)
    ensures var line := key + "=" + val; Trimmed(line) && line != "" && line[0] != '#' && Trimmed(key) && '=' !in key
  {
    var line := key + "=" + val;
    assert key[0] in key && key[|key| - 1] in key;
    assert line[0] == key[0];
    assert line[|line| - 1] == if val == "" then '=' else val[|val| - 1];
  }

  predicate Distinct(keys: seq<string>) {
    keys == [] || (keys[0] !in keys[1..] && Distinct(keys[1..]))
  }

  predicate AllKeysOk(keys: seq<string>) {
    keys == [] || (KeyOk(keys[0]) && AllKeysOk(keys[1..]))
  }

  /** Every value that will be written is one trimmed line. */
  predicate Writable(keys: seq<string>, data: Config) {
    forall k :: k in keys ==> Trimmed(ValueOf(data, k)) && SingleLine(ValueOf(data, k))
  }

  lemma {:induction false} ParseKeyLines(keys: seq<string>, data: Config, acc: Config)
    requires Distinct(keys) && AllKeysOk(keys) && Writable(keys, data)
    ensures ParseFrom(Lines(KeyLines(keys, data)), acc) == acc + map k | k in keys :: ValueOf(data, k)
  {
    hide ValueOf, ParseLine, KeyOk, Trimmed, SingleLine, LineBreak, Space;
    if keys == [] {
      assert acc + (map k | k in keys :: ValueOf(data, k)) == acc;
    } else {
      var key, rest := keys[0], keys[1..];
      assert key in keys && forall k :: k in rest ==> k in keys;
      var line := key + "=" + ValueOf(data, key);
      AssignmentIsLine(key, ValueOf(data, key));
      ParseOneLine(line, Lines(KeyLines(rest, data)), acc);
      ParseAssignment(key, ValueOf(data, key), acc);
      ParseKeyLines(rest, data, acc[key := ValueOf(data, key)]);
      assert KeyLines(keys, data)[1..] == KeyLines(rest, data);
      MapSplit(keys, data, acc);
    }
  }

  lemma AssignmentIsLine(key: string, val: string)
    requires KeyOk(key) && SingleLine(val)
    ensures SingleLine(key + "=" + val)
  {
  }

  lemma MapSplit(keys: seq<string>, data: Config, acc: Config)
    requires keys != []
    ensures acc[keys[0] := ValueOf(data, keys[0])] + (map k | k in keys[1..] :: ValueOf(data, k)) ==
            acc + map k | k in keys :: ValueOf(data, k)
  {
    hide ValueOf;
    assert forall k :: k in keys <==> k == keys[0] || k in keys[1..];
  }

  lemma {:induction false} ParseSkipped(ls: seq<string>, more: seq<string>, acc: Config)
    requires AllSkipped(ls)
    ensures ParseFrom(Lines(ls + more), acc) == ParseFrom(Lines(more), acc)
  {
    hide LineBreak, Space, ParseFrom;
    if ls == [] {
      assert ls + more == more;
    } else {
      assert (ls + more)[1..] == ls[1..] + more;
      ParseOneLine(ls[0], Lines(ls[1..] + more), acc);
      StripNothing(ls[0]);
      ParseSkipped(ls[1..], more, acc);
    }
  }

  lemma HeaderSkipped()
    ensures AllSkipped(HEADER)
  {
    TitleSkipped();
    CoreNoteSkipped();
    KeyNoteSkipped();
    hide TITLE, CORE_NOTE, KEY_NOTE;
    assert AllSkipped([""]);
    assert [KEY_NOTE, ""][1..] == [""];
    assert AllSkipped([KEY_NOTE, ""]);
    assert [CORE_NOTE, KEY_NOTE, ""][1..] == [KEY_NOTE, ""];
    assert AllSkipped([CORE_NOTE, KEY_NOTE, ""]);
    assert HEADER[1..] == [CORE_NOTE, KEY_NOTE, ""];
  }

  lemma TitleSkipped()
    ensures Skipped(TITLE)
  {
    CommentSkipped("# ISD package extras ", "(.isdconfig) \U{2014} ", "generated by ", "scripts/isdconfig.py");
  }

  lemma CoreNoteSkipped()
    ensures Skipped(CORE_NOTE)
  {
    CommentSkipped("# Core busybox/runit ", "always on. Profile ", "packages.txt = ", "mandatory set.");
  }

  lemma KeyNoteSkipped()
    ensures Skipped(KEY_NOTE)
  {
    CommentSkipped("# CONFIG_PKG_* = ", "optional packages; ", "CONFIG_APPLET_* = ", "BusyBox links.");
  }

  lemma PkgKeyInjective(a: string, b: string)
    ensures PkgKey(a) == PkgKey(b) <==> a == b
    ensures PkgKey(a) != TOP_KEY
  {
    assert PkgKey(a)[|PREFIX|..] == a && PkgKey(b)[|PREFIX|..] == b;
    assert PkgKey(a)[7] == PREFIX[7];
  }

  predicate DistinctShorts(shorts: seq<string>) {
    forall i, j :: 0 <= i < j < |shorts| ==> shorts[i] != shorts[j]
  }

  lemma ShortsDistinct()
    ensures DistinctShorts(CORE + EXTRAS)
  {
    assert CORE + EXTRAS == ["BUSYBOX", "RUNIT", "NANO", "NCURSES", "OPENDOAS", "TINYCC", "GNUMAKE", "DOOM"];
  }

  lemma {:induction false} DistinctByIndex(keys: seq<string>)
    requires DistinctShorts(keys)
    ensures Distinct(keys)
  {
    if keys != [] {
      DistinctByIndex(keys[1..]);
    }
  }

  lemma KeysDistinct()
    ensures Distinct(Keys())
  {
    var shorts, keys := CORE + EXTRAS, Keys();
    ShortsDistinct();
    hide CORE, EXTRAS, PkgKey, TOP_KEY;
    forall i, j | 0 <= i < j < |keys| ensures keys[i] != keys[j] {
      PkgKeyInjective(shorts[i], if j < |shorts| then shorts[j] else "");
    }
    DistinctByIndex(keys);
  }

  predicate PlainName(short: string) {
    forall c :: c in short ==> 'A' <= c <= 'Z'
  }

  lemma PkgKeyOk(short: string)
    requires PlainName(short)
    ensures KeyOk(PkgKey(short))
  {
  }

  lemma {:induction false} KeysOkFrom(i: nat)
    requires i <= |Keys()|
    ensures AllKeysOk(Keys()[i..])
    decreases |Keys()| - i
  {
    var shorts, keys := CORE + EXTRAS, Keys();
    if i < |keys| {
      KeysOkFrom(i + 1);
      assert keys[i..][1..] == keys[i + 1..];
      if i < |shorts| {
        ShortsPlain();
        PkgKeyOk(shorts[i]);
      } else {
        TopKeyOk();
      }
    }
  }

  lemma TopKeyOk()
    ensures KeyOk(TOP_KEY)
  {
  }

  lemma ShortsPlain()
    ensures forall s :: s in CORE + EXTRAS ==> PlainName(s)
  {
  }

  /** Writing and then parsing gives back the known keys, with the defaults filled in. */
  lemma WriteThenParse(data: Config)
    requires Writable(Keys(), data)
    ensures Parse(Write(data)) == map k | k in Keys() :: ValueOf(data, k)
  {
    hide Keys, HEADER;
    HeaderSkipped();
    KeysDistinct();
    KeysOkFrom(0);
    assert Keys()[0..] == Keys();
    ParseSkipped(HEADER, KeyLines(Keys(), data), map[]);
    ParseKeyLines(Keys(), data, map[]);
  }

  // ---- What a file says ----

  /** A line of a file: a key and a value with blanks around them, or one that says nothing behind blanks. */
  datatype CfgEntry =
    | Setting(before: string, key: string, mid: string, gap: string, val: string, after: string)
    | Note(before: string, text: string)

  predicate Gap(s: string) {
    AllSpace(s) && SingleLine(s)
  }

  predicate EntryOk(e: CfgEntry) {
    match e
    case Setting(before, key, mid, gap, val, after) =>
      && Gap(before) && Gap(mid) && Gap(gap) && Gap(after) && Plain(key) && Plain(val)
      && key != "" && key[0] != '#' && '=' !in key
    case Note(before, text) => Gap(before) && Plain(text) && (text == "" || text[0] == '#' || '=' !in text)
  }

  function EntryLine(e: CfgEntry): string {
    match e
    case Setting(before, key, mid, gap, val, after) => before + (key + mid + "=" + (gap + val)) + after
    case Note(before, text) => before + text
  }

  function CfgText(es: seq<CfgEntry>): string {
    if es == [] then "" else EntryLine(es[0]) + "\n" + CfgText(es[1..])
  }

  /** The last value that a file gives a key. */
  function LastSetting(es: seq<CfgEntry>, key: string): Option<string> {
    if es == [] then None
    else
      var later := LastSetting(es[1..], key);
      if later == None && es[0].Setting? && es[0].key == key then Some(es[0].val) else later
  }

  predicate AllEntriesOk(es: seq<CfgEntry>) {
    es == [] || (EntryOk(es[0]) && AllEntriesOk(es[1..]))
  }

  lemma SettingTrimmed(key: string, mid: string, gap: string, val: string)
    requires Plain(key) && Plain(val) && key != "" && key[0] != '#' && Gap(gap)
    ensures var body := key + mid + "=" + (if val == "" then "" else gap + val);
            body != "" && body[0] != '#' && Trimmed(body)
  {
    hide LineBreak;
    var body := key + mid + "=" + (if val == "" then "" else gap + val);
    assert body[0] == key[0];
    assert body[|body| - 1] == if val == "" then '=' else val[|val| - 1];
  }

  /** What `strip` leaves of a setting: blanks before an empty value go with it. */
  function SettingCore(key: string, mid: string, gap: string, val: string): string {
    key + mid + "=" + (if val == "" then "" else gap + val)
  }

  lemma SettingStripped(before: string, key: string, mid: string, gap: string, val: string, after: string)
    requires EntryOk(Setting(before, key, mid, gap, val, after))
    ensures Strip(before + (key + mid + "=" + (gap + val)) + after) == SettingCore(key, mid, gap, val)
    ensures SettingCore(key, mid, gap, val) != "" && SettingCore(key, mid, gap, val)[0] != '#'
  {
    var core := SettingCore(key, mid, gap, val);
    var tail := if val == "" then gap + after else after;
    assert before + (key + mid + "=" + (gap + val)) + after == before + core + tail;
    assert AllSpace(tail);
    SettingTrimmed(key, mid, gap, val);
    hide Space, LineBreak, Strip, AllSpace, Trimmed;
    StripIs(before, core, tail);
  }

  lemma CoreSplits(name: string, rest: string)
    requires '=' !in name
    ensures var core := name + ("=" + rest); var at := EqualsAt(core);
            at < |core| && core[..at] == name && core[at + 1..] == rest
  {
    EqualsAtIs(name, "=" + rest);
  }

  lemma CoreRead(key: string, mid: string, gap: string, val: string)
    requires Gap(mid) && Gap(gap) && Plain(key) && Plain(val) && key != "" && '=' !in key
    ensures var core := SettingCore(key, mid, gap, val); var at := EqualsAt(core);
            at < |core| && Strip(core[..at]) == key && Strip(core[at + 1..]) == val
  {
    var rest := if val == "" then "" else gap + val;
    MidHasNoEquals(mid);
    assert AllSpace(mid) && AllSpace(gap) && AllSpace("") && Trimmed(key) && Trimmed(val);
    hide Space, LineBreak, Strip, AllSpace, Trimmed, EqualsAt, Plain, Gap;
    assert SettingCore(key, mid, gap, val) == (key + mid) + ("=" + rest);
    hide SettingCore;
    CoreSplits(key + mid, rest);
    assert "" + key + mid == key + mid;
    StripIs("", key, mid);
    assert rest == (if val == "" then "" else gap) + val + "";
    StripIs(if val == "" then "" else gap, val, "");
  }

  /** A setting is read with the blanks taken off; the value may hold further `=`. */
  lemma SettingRead(e: CfgEntry, data: Config)
    requires EntryOk(e) && e.Setting?
    ensures ParseLine(EntryLine(e), data) == data[e.key := e.val]
  {
    SettingStripped(e.before, e.key, e.mid, e.gap, e.val, e.after);
    CoreRead(e.key, e.mid, e.gap, e.val);
    hide LineBreak, Space, Strip, SettingCore, Gap, Plain;
  }

  lemma MidHasNoEquals(mid: string)
    requires AllSpace(mid)
    ensures '=' !in mid
  {
  }

  lemma NoteRead(e: CfgEntry, data: Config)
    requires EntryOk(e) && e.Note?
    ensures ParseLine(EntryLine(e), data) == data
  {
    hide LineBreak, Space;
    assert EntryLine(e) == e.before + e.text + "";
    StripIs(e.before, e.text, "");
    if '=' !in e.text {
      var at := EqualsAt(e.text);
      assert e.text[..at] + e.text[at..] == e.text;
    }
  }

  lemma EntryIsLine(e: CfgEntry)
    requires EntryOk(e)
    ensures SingleLine(EntryLine(e))
  {
    hide Space;
  }

  /** A file of such lines parses to the last value of each key, blanks taken off, and to nothing else. */
  lemma {:induction false} ParseMeans(es: seq<CfgEntry>, acc: Config, key: string)
    requires AllEntriesOk(es)
    ensures var data := ParseFrom(CfgText(es), acc);
            match LastSetting(es, key)
            case None => (key in data <==> key in acc) && (key in data ==> data[key] == acc[key])
            case Some(val) => key in data && data[key] == val
    decreases |es|
  {
    hide EntryOk, EntryLine, ParseLine, ParseFrom;
    if es == [] {
      NoText(acc);
    } else {
      var e := es[0];
      EntryIsLine(e);
      if e.Setting? {
        SettingRead(e, acc);
      } else {
        NoteRead(e, acc);
      }
      ParseOneLine(EntryLine(e), CfgText(es[1..]), acc);
      ParseMeans(es[1..], ParseLine(EntryLine(e), acc), key);
    }
  }

  lemma NoText(acc: Config)
    ensures ParseFrom(CfgText([]), acc) == acc
  {
  }

  /** A key the file does not set has its default: `y` for core, NANO, NCURSES, OPENDOAS and TOP, else `n`. */
  lemma DefaultsAre()
    ensures |Keys()| == 9
    ensures forall s :: s in ["BUSYBOX", "RUNIT", "NANO", "NCURSES", "OPENDOAS"] ==>
              PkgKey(s) in Keys() && Default(PkgKey(s)) == "y"
    ensures forall s :: s in ["TINYCC", "GNUMAKE", "DOOM"] ==> PkgKey(s) in Keys() && Default(PkgKey(s)) == "n"
    ensures "CONFIG_APPLET_TOP" in Keys() && Default("CONFIG_APPLET_TOP") == "y"
  {
    forall s | s in CORE + EXTRAS ensures PkgKey(s) in Keys() {
      var i :| 0 <= i < |CORE + EXTRAS| && (CORE + EXTRAS)[i] == s;
      assert Keys()[i] == PkgKey(s);
    }
    assert Keys()[8] == TOP_KEY;
    forall s | s in ["BUSYBOX", "RUNIT", "NANO", "NCURSES", "OPENDOAS"] ensures Default(PkgKey(s)) == "y" {
      NotOptional(s);
    }
    PkgKeyInjective("TINYCC", "");
    PkgKeyInjective("GNUMAKE", "");
    PkgKeyInjective("DOOM", "");
  }

  lemma NotOptional(s: string)
    requires s in ["BUSYBOX", "RUNIT", "NANO", "NCURSES", "OPENDOAS"]
    ensures Default(PkgKey(s)) == "y"
  {
    PkgKeyInjective(s, "TINYCC");
    PkgKeyInjective(s, "GNUMAKE");
    PkgKeyInjective(s, "DOOM");
    hide PkgKey;
    assert |"TINYCC"| == 6 && |"GNUMAKE"| == |"NCURSES"| == |"BUSYBOX"| == 7 && |"DOOM"| == |"NANO"| == 4;
    assert |"RUNIT"| == 5 && |"OPENDOAS"| == 8;
    assert "GNUMAKE"[0] == 'G' && "NCURSES"[0] == 'N' && "BUSYBOX"[0] == 'B' && "DOOM"[0] == 'D' && "NANO"[0] == 'N';
  }

  // ---- What is parsed can be written ----

  predicate AllPlain(data: Config) {
    forall k :: k in data ==> Plain(data[k])
  }

  lemma ParseLinePlain(raw: string, data: Config)
    requires SingleLine(raw) && AllPlain(data)
    ensures AllPlain(ParseLine(raw, data))
  {
    hide LineBreak, Space, StripLeft, StripRight;
    StripPlain(raw);
    var line := Strip(raw);
    if EqualsAt(line) != |line| {
      StripPlain(line[EqualsAt(line) + 1..]);
    }
    hide Strip, Plain;
  }

  lemma {:induction false} ParsedIsPlain(text: string, data: Config)
    requires AllPlain(data)
    ensures AllPlain(ParseFrom(text, data))
    decreases |text|
  {
    hide ParseLine, LineBreak, AllPlain, SingleLine;
    if text != "" {
      var n := LineLen(text);
      ParseLinePlain(text[..n], data);
      if n != |text| {
        ParsedIsPlain(text[n + 1..], ParseLine(text[..n], data));
      }
    }
  }
}
