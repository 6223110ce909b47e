/** scripts/isdconfig.py: `set` and `validate`, over the packages that can be built. */
module IsdValidate {
  import opened Fields
  import opened PyText
  import opened IsdConfig

  /**
   * What the checks look up outside the configuration: the names d with a file packages/d/build.sh,
   * whether ISD_DOOM_IWAD names a file, and whether the BusyBox fragment is there without CONFIG_TOP=y.
   */
  datatype World = World(recipes: set<string>, iwad: bool, topMissing: bool)

  predicate Yes(val: string) {
    Lower(val) == "y" || Lower(val) == "yes" || Lower(val) == "1"
  }

  predicate EnabledKey(data: Config, key: string) {
    key in data && Yes(data[key])
  }

  predicate Enabled(data: Config, short: string) {
    EnabledKey(data, PkgKey(short))
  }

  /** `refuse_enable_pkg` returns a message. */
  predicate Refused(short: string, w: World) {
    if short in CORE then false
    else if short !in EXTRAS then true
    else Lower(short) !in w.recipes || (short == "DOOM" && !w.iwad)
  }

  /** A package that is on and cannot be built. */
  predicate Bad(data: Config, w: World, short: string) {
    Enabled(data, short) && Refused(short, w)
  }

  /** A package that is on and can be built. */
  predicate Ready(data: Config, w: World, short: string) {
    Enabled(data, short) && !Refused(short, w)
  }

  // ---- scrub_unready_pkgs ----

  function Scrub(shorts: seq<string>, data: Config, w: World): Config {
    if shorts == [] then data
    else Scrub(shorts[1..], if Bad(data, w, shorts[0]) then data[PkgKey(shorts[0]) := "n"] else data, w)
  }

  predicate AnyBad(shorts: seq<string>, data: Config, w: World) {
    shorts != [] && (Bad(data, w, shorts[0]) || AnyBad(shorts[1..], data, w))
  }

  lemma NoIsNo()
    ensures !Yes("n")
  {
    assert Lower("n") == "n" by {
      assert "n"[1..] == "";
    }
  }

  /** Scrubbing turns a listed package to "n" exactly when it is on and cannot be built. */
  lemma {:induction false} ScrubAt(shorts: seq<string>, data: Config, w: World, s: string)
    ensures var now := Scrub(shorts, data, w);
            && now.Keys == data.Keys
            && (s in shorts && Bad(data, w, s) ==> now[PkgKey(s)] == "n")
            && (PkgKey(s) in data && !(s in shorts && Bad(data, w, s)) ==> now[PkgKey(s)] == data[PkgKey(s)])
    ensures Enabled(Scrub(shorts, data, w), s) <==> Enabled(data, s) && !(s in shorts && Refused(s, w))
  {
    NoIsNo();
    hide Yes, Refused, PkgKey;
    if shorts != [] {
      PkgKeyInjective(shorts[0], s);
      var next := if Bad(data, w, shorts[0]) then data[PkgKey(shorts[0]) := "n"] else data;
      assert s != shorts[0] ==> (PkgKey(s) in data ==> next[PkgKey(s)] == data[PkgKey(s)]);
      ScrubAt(shorts[1..], next, w, s);
    }
  }

  /** Every other key keeps its value. */
  lemma {:induction false} ScrubElsewhere(shorts: seq<string>, data: Config, w: World, key: string)
    requires key in data && forall s :: s in shorts ==> key != PkgKey(s)
    ensures key in Scrub(shorts, data, w) && Scrub(shorts, data, w)[key] == data[key]
  {
    hide Bad;
    if shorts != [] {
      ScrubElsewhere(shorts[1..], if Bad(data, w, shorts[0]) then data[PkgKey(shorts[0]) := "n"] else data, w, key);
    }
  }

  lemma {:induction false} ScrubNothing(shorts: seq<string>, data: Config, w: World)
    requires !AnyBad(shorts, data, w)
    ensures Scrub(shorts, data, w) == data
  {
    if shorts != [] {
      ScrubNothing(shorts[1..], data, w);
    }
  }

  lemma {:induction false} AnyBadMeans(shorts: seq<string>, data: Config, w: World)
    ensures AnyBad(shorts, data, w) <==> exists s :: s in shorts && Bad(data, w, s)
  {
    hide Bad;
    if shorts != [] {
      AnyBadMeans(shorts[1..], data, w);
      assert forall s :: s in shorts <==> s == shorts[0] || s in shorts[1..];
    }
  }

  method ScrubUnready(data: Config, w: World) returns (now: Config, changed: bool)
    ensures now == Scrub(EXTRAS, data, w)
    ensures changed == AnyBad(EXTRAS, data, w)
  {
    hide Bad, EXTRAS;
    now, changed := data, false;
    var i := 0;
    assert EXTRAS[0..] == EXTRAS;
    while i < |EXTRAS|
      invariant 0 <= i <= |EXTRAS|
      invariant Scrub(EXTRAS[i..], now, w) == Scrub(EXTRAS, data, w)
      invariant (changed || AnyBad(EXTRAS[i..], now, w)) == AnyBad(EXTRAS, data, w)
    {
      var short := EXTRAS[i];
      assert EXTRAS[i..][1..] == EXTRAS[i + 1..];
      if Bad(now, w, short) {
        now := now[PkgKey(short) := "n"];
        changed := true;
      }
      i := i + 1;
    }
  }

  // ---- cmd_validate ----

  /** The configuration a command works on: the file, with the defaults filled in. */
  function Loaded(text: Option<string>): Config {
    EnsureDefaults(Parse(Get(text, "")))
  }

  predicate CoreOn(data: Config) {
    Enabled(data, "BUSYBOX") && Enabled(data, "RUNIT")
  }

  /** AUTO_DEPS: NANO needs NCURSES. */
  predicate DepsOn(data: Config) {
    Enabled(data, "NANO") ==> Enabled(data, "NCURSES")
  }

  predicate TopBuilt(data: Config, w: World) {
    EnabledKey(data, TOP_KEY) ==> !w.topMissing
  }

  predicate Accepts(text: Option<string>, w: World) {
    var data := Loaded(text);
    CoreOn(data) && DepsOn(data) && TopBuilt(data, w)
  }

  /** The file after `validate`: rewritten when something was switched off and there is a file. */
  function Validated(text: Option<string>, w: World): Option<string> {
    if text.Some? && AnyBad(EXTRAS, Loaded(text), w) then Some(Write(Scrub(EXTRAS, Loaded(text), w))) else text
  }

  // ---- cmd_set ----

  function UpperChar(c: char): char {
    if 'a' <= c <= 'z' then c - 32 as char else c
  }

  function Upper(s: string): string {
    if s == "" then "" else [UpperChar(s[0])] + Upper(s[1..])
  }

  datatype Assignment = Pkg(short: string, val: string) | Applet(short: string, val: string)

  /** `_normalize_assignment` */
  function Normalized(item: string): Option<Assignment> {
    var at := EqualsAt(item);
    if at == |item| then None
    else
      var key := Upper(Strip(item[..at]));
      var val := Lower(Strip(item[at + 1..]));
      if val != "y" && val != "n" then None
      else if PREFIX <= key then Some(Pkg(key[|PREFIX|..], val))
      else if "CONFIG_APPLET_" <= key then Some(Applet(key[14..], val))
      else if "PKG_" <= key then Some(Pkg(key[4..], val))
      else if "APPLET_" <= key then Some(Applet(key[7..], val))
      else if key in CORE || key in EXTRAS then Some(Pkg(key, val))
      else if key == "TOP" then Some(Applet(key, val))
      else Some(Pkg(key, val))
  }

  /** One assignment: None when `set` stops with an error. */
  function Assign(data: Config, a: Assignment, w: World): Option<Config> {
    match a
    case Pkg(short, val) =>
      if short in CORE && val == "n" then None
      else if short !in CORE && short !in EXTRAS then None
      else
        var now := data[PkgKey(short) := if val == "y" && Refused(short, w) then "n" else val];
        Some(if val == "y" && !Refused(short, w) && short == "NANO" then now[PkgKey("NCURSES") := "y"] else now)
    case Applet(short, val) =>
      if short != "TOP" then None else Some(data[TOP_KEY := val])
  }

  function AssignAll(data: Config, items: seq<string>, w: World): Option<Config>
    decreases |items|
  {
    if items == [] then Some(data)
    else match Normalized(items[0])
      case None => None
      case Some(a) =>
        match Assign(data, a, w)
        case None => None
        case Some(now) => AssignAll(now, items[1..], w)
  }

  class ConfigFile {
    var text: Option<string>

    /** All assignments are good and the file is rewritten, or nothing is. */
    method Set(items: seq<string>, w: World) returns (rc: int)
      modifies this
      ensures match AssignAll(Loaded(old(text)), items, w)
              case None => rc == 1 && text == old(text)
              case Some(data) => rc == 0 && text == Some(Write(Scrub(EXTRAS, data, w)))
    {
      hide Normalized, Assign, Write, EnsureDefaults, Scrub, AnyBad;
      var parsed := ParseCfg(text);
      var data := FillDefaults(parsed);
      var i := 0;
      assert items[0..] == items;
      while i < |items|
        invariant 0 <= i <= |items| && text == old(text)
        invariant AssignAll(data, items[i..], w) == AssignAll(Loaded(old(text)), items, w)
      {
        assert items[i..][1..] == items[i + 1..];
        var parsedItem := Normalized(items[i]);
        if parsedItem.None? {
          return 1;
        }
        var next := Assign(data, parsedItem.value, w);
        if next.None? {
          return 1;
        }
        data := next.value;
        i := i + 1;
      }
      var changed;
      data, changed := ScrubUnready(data, w);
      var written := WriteCfg(data);
      text := Some(written);
      rc := 0;
    }

    method Validate(w: World) returns (rc: int)
      modifies this
      ensures text == Validated(old(text), w)
      ensures rc == if Accepts(old(text), w) then 0 else 1
      ensures rc == 0 <==>
              var data := Loaded(old(text));
              && Enabled(data, "BUSYBOX") && Enabled(data, "RUNIT") && (Enabled(data, "NANO") ==> Enabled(data, "NCURSES"))
              && (EnabledKey(data, TOP_KEY) ==> !w.topMissing)
    {
      hide Enabled, EnabledKey, Scrub, AnyBad, Write, EnsureDefaults, TOP_KEY, Bad;
      var parsed := ParseCfg(text);
      var data := FillDefaults(parsed);
      var errors := 0;
      var i := 0;
      while i < |CORE|
        invariant 0 <= i <= 2 && errors >= 0
        invariant errors == 0 <==> forall j :: 0 <= j < i ==> Enabled(data, CORE[j])
      {
        if !Enabled(data, CORE[i]) {
          errors := errors + 1;
        }
        i := i + 1;
      }
      assert errors == 0 <==> CoreOn(data) by {
        assert CORE[0] == "BUSYBOX" && CORE[1] == "RUNIT";
      }
      if Enabled(data, "NANO") && !Enabled(data, "NCURSES") {
        errors := errors + 1;
      }
      ghost var before := data;
      var changed;
      data, changed := ScrubUnready(data, w);
      i := 0;
      while i < |EXTRAS|
        invariant 0 <= i && errors >= 0 && text == old(text)
        invariant errors == 0 <==> CoreOn(before) && DepsOn(before)
      {
        if Enabled(data, EXTRAS[i]) {
          ScrubAt(EXTRAS, before, w, EXTRAS[i]);
          // A package that is still on has a recipe, so this error is never raised.
          assert Lower(EXTRAS[i]) in w.recipes by {
            ExtrasAreNotCore();
          }
          if Lower(EXTRAS[i]) !in w.recipes {
            errors := errors + 1;
          }
        }
        i := i + 1;
      }
      TopSurvives(before, w);
      if EnabledKey(data, TOP_KEY) && w.topMissing {
        errors := errors + 1;
      }
      if changed && text.Some? {
        var written := WriteCfg(data);
        text := Some(written);
      }
      rc := if errors > 0 then 1 else 0;
    }
  }

  lemma ExtrasAreNotCore()
    ensures forall s :: s in EXTRAS ==> s !in CORE
  {
  }

  lemma TopSurvives(data: Config, w: World)
    ensures EnabledKey(Scrub(EXTRAS, data, w), TOP_KEY) <==> EnabledKey(data, TOP_KEY)
  {
    hide PkgKey, EXTRAS, TOP_KEY, Scrub, Yes;
    forall s ensures PkgKey(s) != TOP_KEY {
      PkgKeyInjective(s, s);
    }
    ScrubAt(EXTRAS, data, w, "");
    if TOP_KEY in data {
      ScrubElsewhere(EXTRAS, data, w, TOP_KEY);
    }
  }

  // ---- What a validate leaves ----

  /** The data holds one trimmed line for every known key. */
  predicate HasKeys(data: Config) {
    forall k :: k in Keys() ==> k in data && Plain(data[k])
  }

  lemma LoadedHasKeys(text: Option<string>)
    ensures HasKeys(Loaded(text))
  {
    hide Keys, Default, Plain, ParseFrom;
    ParsedIsPlain(Get(text, ""), map[]);
    DefaultsPlain();
  }

  lemma DefaultsPlain()
    ensures forall k :: Plain(Default(k))
  {
    hide PkgKey;
    assert Plain("y") && Plain("n");
  }

  /** Writing the keys and loading them again keeps every known key. */
  lemma WriteThenLoad(data: Config, key: string)
    requires HasKeys(data) && key in Keys()
    ensures key in Loaded(Some(Write(data))) && Loaded(Some(Write(data)))[key] == data[key]
  {
    hide Keys, Default, Trimmed, SingleLine, Write, Parse;
    WriteThenParse(data);
  }

  lemma ShortIsKey(short: string)
    requires short in CORE || short in EXTRAS
    ensures PkgKey(short) in Keys()
  {
    hide PkgKey, TOP_KEY, CORE, EXTRAS;
    var shorts := CORE + EXTRAS;
    assert short in shorts;
    var i :| 0 <= i < |shorts| && shorts[i] == short;
    assert Keys()[i] == PkgKey(short);
  }

  lemma ScrubbedHasKeys(data: Config, w: World)
    requires HasKeys(data)
    ensures HasKeys(Scrub(EXTRAS, data, w))
  {
    hide Keys, PkgKey, Scrub, Bad, EXTRAS;
    assert Plain("n");
    hide Plain;
    forall k | k in Keys() ensures k in Scrub(EXTRAS, data, w) && Plain(Scrub(EXTRAS, data, w)[k]) {
      if s :| s in EXTRAS && k == PkgKey(s) {
        ScrubAt(EXTRAS, data, w, s);
      } else {
        ScrubElsewhere(EXTRAS, data, w, k);
      }
    }
  }

  /** Scrub, write and load again: a package is on exactly when it was on before and can be built. */
  lemma ScrubbedPackage(data: Config, w: World, short: string)
    requires HasKeys(data) && (short in CORE || short in EXTRAS)
    ensures Enabled(Loaded(Some(Write(Scrub(EXTRAS, data, w)))), short) <==> Ready(data, w, short)
  {
    hide Plain, Keys, PkgKey, Loaded, Scrub, EXTRAS, CORE, Write, Yes;
    ScrubAt(EXTRAS, data, w, short);
    CoreNotRefused(short, w);
    ScrubbedHasKeys(data, w);
    ShortIsKey(short);
    WriteThenLoad(Scrub(EXTRAS, data, w), PkgKey(short));
  }

  lemma ScrubbedTop(data: Config, w: World)
    requires HasKeys(data)
    ensures EnabledKey(Loaded(Some(Write(Scrub(EXTRAS, data, w)))), TOP_KEY) <==> EnabledKey(data, TOP_KEY)
  {
    hide PkgKey, Plain, Loaded, Scrub, EXTRAS, CORE, Write, Yes, PkgKeys, TOP_KEY;
    TopSurvives(data, w);
    ScrubbedHasKeys(data, w);
    assert TOP_KEY in Keys();
    WriteThenLoad(Scrub(EXTRAS, data, w), TOP_KEY);
  }

  /** The same for the file that `validate` leaves. */
  lemma ValidatedPackage(text: Option<string>, w: World, short: string)
    requires text.Some? && (short in CORE || short in EXTRAS)
    ensures Enabled(Loaded(Validated(text, w)), short) <==> Ready(Loaded(text), w, short)
  {
    hide HasKeys, Enabled, Loaded, Scrub, EXTRAS, CORE, Write, Refused;
    var data := Loaded(text);
    LoadedHasKeys(text);
    ScrubbedPackage(data, w, short);
    CoreNotRefused(short, w);
    AnyBadMeans(EXTRAS, data, w);
  }

  lemma CoreNotRefused(short: string, w: World)
    requires short in CORE || short in EXTRAS
    ensures short in EXTRAS || !Refused(short, w)
  {
  }

  lemma ValidatedTop(text: Option<string>, w: World)
    requires text.Some?
    ensures EnabledKey(Loaded(Validated(text, w)), TOP_KEY) <==> EnabledKey(Loaded(text), TOP_KEY)
  {
    hide HasKeys, EnabledKey, Loaded, Scrub, EXTRAS, Write, TOP_KEY;
    LoadedHasKeys(text);
    ScrubbedTop(Loaded(text), w);
  }

  /** Validating twice leaves the file that validating once leaves. */
  lemma ValidateIdempotent(text: Option<string>, w: World)
    ensures Validated(Validated(text, w), w) == Validated(text, w)
  {
    hide EXTRAS, Loaded, Write, Enabled, Refused, Scrub;
    if text.Some? {
      forall s | s in EXTRAS ensures !Bad(Loaded(Validated(text, w)), w, s) {
        ValidatedPackage(text, w, s);
      }
      AnyBadMeans(EXTRAS, Loaded(Validated(text, w)), w);
    }
  }

  /** When a second validate of a file accepts, in terms of the file before the first. */
  lemma SecondValidate(text: Option<string>, w: World)
    requires text.Some?
    ensures var data := Loaded(text);
            Accepts(Validated(text, w), w) <==>
            CoreOn(data) && (Ready(data, w, "NANO") ==> Ready(data, w, "NCURSES")) && TopBuilt(data, w)
  {
    hide Loaded, Validated, Enabled, EnabledKey, TOP_KEY;
    assert "BUSYBOX" in CORE && "RUNIT" in CORE && "NANO" in EXTRAS && "NCURSES" in EXTRAS;
    assert !Refused("BUSYBOX", w) && !Refused("RUNIT", w);
    hide Refused, CORE, EXTRAS;
    ValidatedPackage(text, w, "BUSYBOX");
    ValidatedPackage(text, w, "RUNIT");
    ValidatedPackage(text, w, "NANO");
    ValidatedPackage(text, w, "NCURSES");
    ValidatedTop(text, w);
  }

  /**
   * An accepted validate of a file leaves core on and every extra that is on buildable. Its dependencies
   * are closed, and a second validate accepts, exactly when NANO was not kept without a recipe for NCURSES.
   */
  lemma AcceptedValidate(text: Option<string>, w: World)
    requires text.Some? && Accepts(text, w)
    ensures var left := Validated(text, w); var now := Loaded(left);
            && CoreOn(now) && TopBuilt(now, w)
            && (forall s :: s in EXTRAS && Enabled(now, s) ==> Lower(s) in w.recipes && (s == "DOOM" ==> w.iwad))
            && (DepsOn(now) <==> !(Enabled(Loaded(text), "NANO") && "nano" in w.recipes && "ncurses" !in w.recipes))
            && (Accepts(left, w) <==> DepsOn(now))
  {
    hide Loaded, Validated, Enabled, EnabledKey, TOP_KEY;
    var now := Loaded(Validated(text, w));
    SecondValidate(text, w);
    ValidatedTop(text, w);
    ValidatedPackage(text, w, "BUSYBOX");
    ValidatedPackage(text, w, "RUNIT");
    ValidatedPackage(text, w, "NANO");
    ValidatedPackage(text, w, "NCURSES");
    forall s | s in EXTRAS && Enabled(now, s) ensures Lower(s) in w.recipes && (s == "DOOM" ==> w.iwad) {
      ValidatedPackage(text, w, s);
      ExtrasAreNotCore();
    }
    hide Refused, CORE, EXTRAS, Lower;
    PairRefused(w);
  }

  lemma LowerNames()
    ensures Lower("NANO") == "nano" && Lower("NCURSES") == "ncurses"
  {
    LowerIs("NANO");
    LowerIs("NCURSES");
    hide Lower;
    assert |"NANO"| == |"nano"| == 4 && |"NCURSES"| == |"ncurses"| == 7;
    assert forall i :: 0 <= i < 4 ==> LowerChar("NANO"[i]) == "nano"[i];
    assert forall i :: 0 <= i < 7 ==> LowerChar("NCURSES"[i]) == "ncurses"[i];
  }

  lemma PairRefused(w: World)
    ensures Refused("NANO", w) <==> "nano" !in w.recipes
    ensures Refused("NCURSES", w) <==> "ncurses" !in w.recipes
  {
    LowerNames();
    hide Lower;
    assert "NANO" in EXTRAS && "NCURSES" in EXTRAS;
    ExtrasAreNotCore();
    assert |"DOOM"| == |"NANO"| && "NANO"[0] != "DOOM"[0];
  }

  // ---- What a set leaves ----

  lemma YesNoPlain()
    ensures Plain("y") && Plain("n") && Yes("y") && !Yes("n")
  {
    NoIsNo();
    assert Lower("y") == "y" by {
      assert "y"[1..] == "";
    }
  }

  lemma NormalizedVal(item: string)
    requires Normalized(item).Some?
    ensures Normalized(item).value.val in ["y", "n"]
  {
  }

  /** Whether a package is on after one assignment. */
  predicate OnAfter(data: Config, a: Assignment, w: World, s: string) {
    if a.Applet? then Enabled(data, s)
    else if a.short == s then a.val == "y" && !Refused(s, w)
    else if a == Pkg("NANO", "y") && s == "NCURSES" && !Refused("NANO", w) then true
    else Enabled(data, s)
  }

  lemma AssignEnabled(data: Config, a: Assignment, w: World, s: string)
    requires a.val in ["y", "n"] && Assign(data, a, w).Some?
    ensures Enabled(Assign(data, a, w).value, s) <==> OnAfter(data, a, w, s)
  {
    YesNoPlain();
    PkgKeyInjective(s, a.short);
    PkgKeyInjective(s, "NCURSES");
    hide Plain, Yes, Keys, PkgKey, Refused, TOP_KEY, CORE, EXTRAS;
    assert "NANO" != "NCURSES";
  }

  /** One assignment keeps every key writable and keeps core on. */
  lemma AssignKeeps(data: Config, a: Assignment, w: World)
    requires a.val in ["y", "n"] && Assign(data, a, w).Some?
    ensures HasKeys(data) ==> HasKeys(Assign(data, a, w).value)
    ensures CoreOn(data) ==> CoreOn(Assign(data, a, w).value)
  {
    YesNoPlain();
    AssignEnabled(data, a, w, "BUSYBOX");
    AssignEnabled(data, a, w, "RUNIT");
    assert "BUSYBOX" in CORE && "RUNIT" in CORE;
    hide Plain, Yes, Keys, PkgKey, TOP_KEY, Enabled;
  }

  lemma {:induction false} AssignAllKeeps(data: Config, items: seq<string>, w: World)
    requires AssignAll(data, items, w).Some?
    ensures HasKeys(data) ==> HasKeys(AssignAll(data, items, w).value)
    ensures CoreOn(data) ==> CoreOn(AssignAll(data, items, w).value)
    decreases |items|
  {
    hide HasKeys, CoreOn, Normalized, Assign;
    if items != [] {
      NormalizedVal(items[0]);
      var a := Normalized(items[0]).value;
      AssignKeeps(data, a, w);
      AssignAllKeeps(Assign(data, a, w).value, items[1..], w);
    }
  }

  /** A successful set never turns core off, and every extra it leaves on can be built. */
  lemma SetKeepsCore(text: Option<string>, items: seq<string>, w: World)
    requires AssignAll(Loaded(text), items, w).Some?
    ensures var now := Loaded(Some(Write(Scrub(EXTRAS, AssignAll(Loaded(text), items, w).value, w))));
            && (CoreOn(Loaded(text)) ==> CoreOn(now))
            && forall s :: s in EXTRAS && Enabled(now, s) ==> !Refused(s, w)
  {
    hide HasKeys, Loaded, Enabled, AssignAll, Write, Scrub;
    var data := AssignAll(Loaded(text), items, w).value;
    LoadedHasKeys(text);
    AssignAllKeeps(Loaded(text), items, w);
    assert "BUSYBOX" in CORE && "RUNIT" in CORE;
    assert !Refused("BUSYBOX", w) && !Refused("RUNIT", w);
    hide CORE, EXTRAS, Refused;
    ScrubbedPackage(data, w, "BUSYBOX");
    ScrubbedPackage(data, w, "RUNIT");
    forall s | s in EXTRAS && Enabled(Loaded(Some(Write(Scrub(EXTRAS, data, w)))), s) ensures !Refused(s, w) {
      ScrubbedPackage(data, w, s);
    }
  }

  /** The list without its last assignment, and then that one. */
  lemma {:induction false} AssignLast(data: Config, items: seq<string>, w: World)
    requires items != []
    ensures var init := AssignAll(data, items[..|items| - 1], w);
            AssignAll(data, items, w) ==
            if init.None? then None
            else match Normalized(items[|items| - 1])
              case None => None
              case Some(a) => Assign(init.value, a, w)
    decreases |items|
  {
    hide Normalized, Assign;
    if |items| == 1 {
      assert items[1..] == [] && items[..0] == [];
    } else {
      var rest := items[1..];
      assert items[..|items| - 1][1..] == rest[..|rest| - 1];
      assert items[..|items| - 1][0] == items[0] && rest[|rest| - 1] == items[|items| - 1];
      if Normalized(items[0]).Some? && Assign(data, Normalized(items[0]).value, w).Some? {
        AssignLast(Assign(data, Normalized(items[0]).value, w).value, rest, w);
      }
    }
  }

  /** The assignment says whether the package will be on: NANO=y brings NCURSES when NANO can be built. */
  predicate Decides(a: Assignment, short: string, w: World) {
    a.Pkg? && (a.short == short || (short == "NCURSES" && a == Pkg("NANO", "y") && !Refused("NANO", w)))
  }

  function LastDeciding(items: seq<string>, short: string, w: World): Option<Assignment> {
    if items == [] then None
    else
      var a := Normalized(items[|items| - 1]);
      if a.Some? && Decides(a.value, short, w) then a else LastDeciding(items[..|items| - 1], short, w)
  }

  /** What the last assignment that decides asks for; without one, what the file has. */
  predicate AskedFor(data: Config, items: seq<string>, short: string, w: World) {
    match LastDeciding(items, short, w)
    case None => Enabled(data, short)
    case Some(a) => a.val == "y"
  }

  /** The list asks for NANO, which can be built, and not for NCURSES, or NCURSES cannot be built. */
  predicate Breaks(data: Config, items: seq<string>, w: World) {
    && !Refused("NANO", w) && AskedFor(data, items, "NANO", w)
    && (Refused("NCURSES", w) || !AskedFor(data, items, "NCURSES", w))
  }

  lemma {:induction false} AssignAllAsked(data: Config, items: seq<string>, w: World, s: string)
    requires AssignAll(data, items, w).Some? && !Refused(s, w)
    ensures Enabled(AssignAll(data, items, w).value, s) <==> AskedFor(data, items, s, w)
    decreases |items|
  {
    hide Normalized, Assign, Enabled, Refused;
    if items != [] {
      var init := items[..|items| - 1];
      AssignLast(data, items, w);
      AssignAllAsked(data, init, w, s);
      var a := Normalized(items[|items| - 1]).value;
      NormalizedVal(items[|items| - 1]);
      AssignEnabled(AssignAll(data, init, w).value, a, w, s);
      assert "NANO" != "NCURSES" && "n" != "y";
      hide AssignAll;
    }
  }

  /**
   * After any list of assignments a package is on in the file exactly when it can be built and the last assignment
   * that decides it, or without one the file before, has it on.
   */
  lemma SetDecides(text: Option<string>, items: seq<string>, w: World, s: string)
    requires AssignAll(Loaded(text), items, w).Some? && (s in CORE || s in EXTRAS)
    ensures var data := AssignAll(Loaded(text), items, w).value;
            Enabled(Loaded(Some(Write(Scrub(EXTRAS, data, w)))), s) <==>
            !Refused(s, w) && AskedFor(Loaded(text), items, s, w)
  {
    hide AssignAll, HasKeys, Loaded, Enabled, Scrub, Write, EXTRAS, CORE, Refused, AskedFor;
    LoadedHasKeys(text);
    AssignAllKeeps(Loaded(text), items, w);
    if !Refused(s, w) {
      AssignAllAsked(Loaded(text), items, w, s);
    }
    ScrubbedPackage(AssignAll(Loaded(text), items, w).value, w, s);
  }

  /**
   * `set` looks at a dependency only when it turns NANO on: after any list of assignments the dependencies of
   * what is on are closed exactly when the last assignments that decide NANO and NCURSES do not break them.
   */
  lemma SetDeps(text: Option<string>, items: seq<string>, w: World)
    requires AssignAll(Loaded(text), items, w).Some?
    ensures var data := AssignAll(Loaded(text), items, w).value;
            DepsOn(Loaded(Some(Write(Scrub(EXTRAS, data, w))))) <==> !Breaks(Loaded(text), items, w)
  {
    assert "NANO" in EXTRAS && "NCURSES" in EXTRAS;
    hide AssignAll, Loaded, Enabled, Scrub, Write, EXTRAS, CORE, Refused, AskedFor;
    SetDecides(text, items, w, "NANO");
    SetDecides(text, items, w, "NCURSES");
  }

  /** An assignment that `set` takes: core is not turned off, and the package or applet is known. */
  predicate Taken(item: string) {
    match Normalized(item)
    case None => false
    case Some(Pkg(short, val)) => short in EXTRAS || (short in ["BUSYBOX", "RUNIT"] && val == "y")
    case Some(Applet(short, val)) => short == "TOP"
  }

  /** `set` refuses a list exactly when it would refuse one of its assignments, whatever the file holds. */
  lemma {:induction false} SetTakes(data: Config, items: seq<string>, w: World)
    ensures AssignAll(data, items, w).Some? <==> forall i :: 0 <= i < |items| ==> Taken(items[i])
    decreases |items|
  {
    hide Normalized, Refused, PkgKey, TOP_KEY;
    if items != [] {
      ExtrasAreNotCore();
      if Normalized(items[0]).Some? {
        NormalizedVal(items[0]);
        var next := Assign(data, Normalized(items[0]).value, w);
        assert Taken(items[0]) <==> next.Some?;
        if next.Some? {
          SetTakes(next.value, items[1..], w);
        }
      }
      hide Assign, Taken;
      assert forall i :: 1 <= i < |items| ==> items[i] == items[1..][i - 1];
      assert forall i :: 0 <= i < |items| - 1 ==> items[1..][i] == items[i + 1];
    }
  }

  /** The last value that the list gives the TOP applet. */
  function LastTop(items: seq<string>): Option<string> {
    if items == [] then None
    else
      match Normalized(items[|items| - 1])
      case Some(Applet("TOP", val)) => Some(val)
      case _ => LastTop(items[..|items| - 1])
  }

  lemma {:induction false} AssignAllTop(data: Config, items: seq<string>, w: World)
    requires AssignAll(data, items, w).Some?
    ensures EnabledKey(AssignAll(data, items, w).value, TOP_KEY) <==>
            match LastTop(items) case None => EnabledKey(data, TOP_KEY) case Some(val) => val == "y"
    decreases |items|
  {
    hide Normalized, Refused, PkgKey, TOP_KEY, Yes;
    YesNoPlain();
    if items != [] {
      var init := items[..|items| - 1];
      AssignLast(data, items, w);
      AssignAllTop(data, init, w);
      NormalizedVal(items[|items| - 1]);
      PkgKeyInjective(Normalized(items[|items| - 1]).value.short, "");
      PkgKeyInjective("NCURSES", "");
      hide AssignAll;
    }
  }

  /** And so for the TOP applet. */
  lemma SetTop(text: Option<string>, items: seq<string>, w: World)
    requires AssignAll(Loaded(text), items, w).Some?
    ensures var data := AssignAll(Loaded(text), items, w).value;
            EnabledKey(Loaded(Some(Write(Scrub(EXTRAS, data, w)))), TOP_KEY) <==>
            match LastTop(items) case None => EnabledKey(Loaded(text), TOP_KEY) case Some(val) => val == "y"
  {
    hide AssignAll, HasKeys, Loaded, EnabledKey, Scrub, Write, EXTRAS, TOP_KEY, LastTop;
    LoadedHasKeys(text);
    AssignAllKeeps(Loaded(text), items, w);
    AssignAllTop(Loaded(text), items, w);
    ScrubbedTop(AssignAll(Loaded(text), items, w).value, w);
  }

  // ---- What the values and the assignments mean ----

  /** `y`, `yes` and `1`, in any case, and nothing else. */
  lemma YesMeans(val: string)
    ensures Yes(val) <==>
            || val == "1" || (|val| == 1 && val[0] in {'y', 'Y'})
            || (|val| == 3 && val[0] in {'y', 'Y'} && val[1] in {'e', 'E'} && val[2] in {'s', 'S'})
  {
    LowerIs(val);
    hide Lower;
    assert |"yes"| == 3 && "yes"[0] == 'y' && "yes"[1] == 'e' && "yes"[2] == 's';
    if |val| == 1 {
      assert Lower(val) == [LowerChar(val[0])];
    } else if |val| == 3 {
      assert Lower(val) == [LowerChar(val[0]), LowerChar(val[1]), LowerChar(val[2])];
    }
  }

  lemma {:induction false} UpperIs(s: string)
    ensures |Upper(s)| == |s|
    ensures forall i :: 0 <= i < |s| ==> Upper(s)[i] == if 'a' <= s[i] <= 'z' then (s[i] as int - 32) as char else s[i]
  {
    if s != "" {
      UpperIs(s[1..]);
    }
  }

  /**
   * How `set` reads an assignment, with blanks around the key and the value: the value is y or n in any case, and the
   * key in any case a package with its long or short prefix, an applet with either, or a bare name of a known one.
   */
  lemma AssignmentRead(before: string, key: string, mid: string, gap: string, val: string, after: string, name: string)
    requires AllSpace(before) && AllSpace(mid) && AllSpace(gap) && AllSpace(after) && Trimmed(key) && Trimmed(val)
    requires '=' !in key
    ensures var a := Normalized(before + key + mid + "=" + (gap + val + after)); var up, v := Upper(key), Lower(val);
            && (a.Some? <==> v == "y" || v == "n")
            && (a.Some? ==>
                  && (up == "CONFIG_PKG_" + name || up == "PKG_" + name ==> a == Some(Pkg(name, v)))
                  && (up == "CONFIG_APPLET_" + name || up == "APPLET_" + name ==> a == Some(Applet(name, v)))
                  && (up in ["BUSYBOX", "RUNIT", "NANO", "NCURSES", "OPENDOAS", "TINYCC", "GNUMAKE", "DOOM"] ==>
                        a == Some(Pkg(up, v)))
                  && (up == "TOP" ==> a == Some(Applet("TOP", v))))
  {
    var item := before + key + mid + "=" + (gap + val + after);
    MidHasNoEquals(before);
    MidHasNoEquals(mid);
    hide Strip, Space, Upper, Lower, AllSpace, Trimmed, EqualsAt;
    assert item == (before + key + mid) + ("=" + (gap + val + after));
    EqualsAtIs(before + key + mid, "=" + (gap + val + after));
    var at := |before + key + mid|;
    assert item[..at] == before + key + mid && item[at + 1..] == gap + val + after;
    StripIs(before, key, mid);
    StripIs(gap, val, after);
    Prefixes(Upper(key), name);
  }

  /** Which prefixes a key has. */
  lemma Prefixes(up: string, name: string)
    ensures up == "PKG_" + name ==> "PKG_" <= up && up[4..] == name && !(PREFIX <= up) && !("CONFIG_APPLET_" <= up)
    ensures up == PREFIX + name ==> PREFIX <= up && up[|PREFIX|..] == name
    ensures up == "APPLET_" + name ==>
              && "APPLET_" <= up && up[7..] == name
              && !(PREFIX <= up) && !("CONFIG_APPLET_" <= up) && !("PKG_" <= up)
    ensures up == "CONFIG_APPLET_" + name ==> "CONFIG_APPLET_" <= up && up[14..] == name && !(PREFIX <= up)
    ensures up in CORE || up in EXTRAS || up == "TOP" ==>
              !(PREFIX <= up) && !("CONFIG_APPLET_" <= up) && !("PKG_" <= up) && !("APPLET_" <= up)
    ensures "TOP" !in CORE && "TOP" !in EXTRAS
  {
    assert "PKG_"[0] == 'P' && "APPLET_"[0] == 'A' && PREFIX[0] == 'C' && "CONFIG_APPLET_"[0] == 'C';
    assert PREFIX[7] == 'P' && "CONFIG_APPLET_"[7] == 'A';
  }

  /** An extra cannot be built without a recipe under its name in small letters, and DOOM not without its data file. */
  lemma ExtrasRefused(w: World)
    ensures Refused("NANO", w) <==> "nano" !in w.recipes
    ensures Refused("NCURSES", w) <==> "ncurses" !in w.recipes
    ensures Refused("OPENDOAS", w) <==> "opendoas" !in w.recipes
    ensures Refused("TINYCC", w) <==> "tinycc" !in w.recipes
    ensures Refused("GNUMAKE", w) <==> "gnumake" !in w.recipes
    ensures Refused("DOOM", w) <==> "doom" !in w.recipes || !w.iwad
  {
    PairRefused(w);
    LowerMore();
    LowerLast();
    ExtrasAreNotCore();
    hide Lower;
    assert "OPENDOAS" in EXTRAS && "TINYCC" in EXTRAS && "GNUMAKE" in EXTRAS && "DOOM" in EXTRAS;
    assert |"DOOM"| == 4 && |"OPENDOAS"| == 8 && |"TINYCC"| == 6 && |"GNUMAKE"| == 7;
  }

  lemma LowerMore()
    ensures Lower("OPENDOAS") == "opendoas" && Lower("TINYCC") == "tinycc"
  {
    LowerIs("OPENDOAS");
    LowerIs("TINYCC");
    hide Lower;
    assert |"OPENDOAS"| == |"opendoas"| == 8 && |"TINYCC"| == |"tinycc"| == 6;
    assert forall i :: 0 <= i < 8 ==> LowerChar("OPENDOAS"[i]) == "opendoas"[i];
    assert forall i :: 0 <= i < 6 ==> LowerChar("TINYCC"[i]) == "tinycc"[i];
  }

  lemma LowerLast()
    ensures Lower("GNUMAKE") == "gnumake" && Lower("DOOM") == "doom"
  {
    LowerIs("GNUMAKE");
    LowerIs("DOOM");
    hide Lower;
    assert |"GNUMAKE"| == |"gnumake"| == 7 && |"DOOM"| == |"doom"| == 4;
    assert forall i :: 0 <= i < 7 ==> LowerChar("GNUMAKE"[i]) == "gnumake"[i];
    assert forall i :: 0 <= i < 4 ==> LowerChar("DOOM"[i]) == "doom"[i];
  }

  // ---- Inputs that show what goes wrong ----

  /** With nothing in the file NANO and NCURSES are on. */
  lemma DefaultsOn(text: Option<string>)
    requires Get(text, "") == ""
    ensures Enabled(Loaded(text), "NANO") && Enabled(Loaded(text), "NCURSES") && CoreOn(Loaded(text))
  {
    assert Parse("") == map[];
    YesNoPlain();
    ShortIsKey("NANO");
    ShortIsKey("NCURSES");
    ShortIsKey("BUSYBOX");
    ShortIsKey("RUNIT");
    NotOptional("NANO");
    NotOptional("NCURSES");
    NotOptional("BUSYBOX");
    NotOptional("RUNIT");
    hide PkgKey, Keys, Default, Yes, Parse;
  }

  const BOTH := World({"nano", "ncurses"}, false, false)
  const NANO_ALONE := World({"nano"}, false, false)

  lemma NcursesOff()
    ensures Normalized("NCURSES=n") == Some(Pkg("NCURSES", "n"))
  {
    NcursesText();
    NcursesPlain();
    hide Upper, Lower, Space, Normalized, Trimmed, AllSpace;
    AssignmentRead("", "NCURSES", "", "", "n", "", "");
  }

  lemma NcursesText()
    ensures "" + "NCURSES" + "" + "=" + ("" + "n" + "") == "NCURSES=n"
  {
  }

  lemma NcursesPlain()
    ensures Upper("NCURSES") == "NCURSES" && Lower("n") == "n" && '=' !in "NCURSES"
    ensures Trimmed("NCURSES") && Trimmed("n") && AllSpace("")
  {
    hide Space;
    NcursesLetters();
    NNotSpace();
    LowerIs("n");
    hide Upper, Lower;
    assert Lower("n") == ['n'];
  }

  lemma NcursesLetters()
    ensures Upper("NCURSES") == "NCURSES" && '=' !in "NCURSES"
  {
    hide Upper;
    UpperKeeps("NCURSES");
  }

  lemma NNotSpace()
    ensures !Space('N') && !Space('S') && !Space('n')
  {
  }

  lemma {:induction false} UpperKeeps(s: string)
    requires forall c :: c in s ==> 'A' <= c <= 'Z'
    ensures Upper(s) == s
  {
    if s != "" {
      assert s[0] in s && forall c :: c in s[1..] ==> c in s;
      UpperKeeps(s[1..]);
    }
  }

  lemma OneAssignment(data: Config, item: string, w: World)
    requires Normalized(item).Some?
    ensures AssignAll(data, [item], w) == Assign(data, Normalized(item).value, w)
    ensures forall short :: LastDeciding([item], short, w) ==
              if Decides(Normalized(item).value, short, w) then Normalized(item) else None
  {
    hide Normalized, Assign, Decides;
    assert [item][1..] == [] && [item][..0] == [];
    assert forall short :: LastDeciding([], short, w) == None;
  }

  /** The assignment goes through, and decides NCURSES alone. */
  lemma NcursesOffAssigned(data: Config, w: World)
    ensures AssignAll(data, ["NCURSES=n"], w).Some?
    ensures LastDeciding(["NCURSES=n"], "NANO", w) == None
    ensures LastDeciding(["NCURSES=n"], "NCURSES", w) == Some(Pkg("NCURSES", "n"))
  {
    NcursesOff();
    assert "NCURSES" in EXTRAS && "NANO" != "NCURSES" && "y" != "n";
    ExtrasAreNotCore();
    hide Normalized, Refused, EXTRAS, CORE, AssignAll, LastDeciding;
    OneAssignment(data, "NCURSES=n", w);
  }

  lemma NcursesOffBreaks()
    ensures Breaks(Loaded(None), ["NCURSES=n"], BOTH)
  {
    DefaultsOn(None);
    PairRefused(BOTH);
    assert "y" != "n";
    hide Loaded, Enabled, Refused, LastDeciding;
    NcursesOffAssigned(Loaded(None), BOTH);
  }

  /** `set NCURSES=n` is accepted while NANO is on, and leaves a file that `validate` refuses. */
  lemma NcursesCanBeSetOff()
    ensures var data := AssignAll(Loaded(None), ["NCURSES=n"], BOTH);
            data.Some? && !Accepts(Some(Write(Scrub(EXTRAS, data.value, BOTH))), BOTH)
  {
    NcursesOffBreaks();
    NcursesOffAssigned(Loaded(None), BOTH);
    hide Loaded, Enabled, Refused, Scrub, Write, EXTRAS, AssignAll, Breaks, BOTH, CoreOn, TopBuilt;
    SetDeps(None, ["NCURSES=n"], BOTH);
  }

  /** An empty file is accepted where NANO can be built and NCURSES cannot, and no longer after that. */
  lemma AcceptedOnce()
    ensures Accepts(Some(""), NANO_ALONE) && !Accepts(Validated(Some(""), NANO_ALONE), NANO_ALONE)
  {
    DefaultsOn(Some(""));
    hide Loaded, Enabled, EnabledKey, Validated, Refused;
    AcceptedValidate(Some(""), NANO_ALONE);
    assert "ncurses" != "nano" by {
      assert |"ncurses"| != |"nano"|;
    }
  }
}
