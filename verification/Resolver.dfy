/** scripts/resolve-packages.sh: the package set of a profile, and its agreement with isdconfig.py. */
module Resolver {
  import opened Fields
  import opened PyText
  import opened IsdConfig
  import opened IsdValidate

  // ---- One line of each file ----

  /** Length of a line as bash's `read` sees it. */
  function NewlineAt(s: string): (n: nat)
    ensures n <= |s| && '\n' !in s[..n] && (n == |s| || s[n] == '\n')
  {
    if s == "" || s[0] == '\n' then 0 else 1 + NewlineAt(s[1..])
  }

  predicate Blank(c: char) {
    c == ' ' || c == '\t'
  }

  function BlanksLeft(s: string): string {
    if s != "" && Blank(s[0]) then BlanksLeft(s[1..]) else s
  }

  function BlanksRight(s: string): string {
    if s != "" && Blank(s[|s| - 1]) then BlanksRight(s[..|s| - 1]) else s
  }

  /** The name on a line of packages.txt, "" for none: `read` drops the blanks at both ends. */
  function ProfileLine(line: string): string {
    var name := BlanksRight(BlanksLeft(line));
    if name != "" && name[0] == '#' then "" else name
  }

  predicate EndsInYes(s: string) {
    |s| >= 2 && s[|s| - 2] == '=' && (s[|s| - 1] == 'y' || s[|s| - 1] == 'Y')
  }

  /** The glob CONFIG_PKG_*=y|CONFIG_PKG_*=Y. */
  predicate Picked(line: string) {
    |line| >= |PREFIX| + 2 && PREFIX <= line && EndsInYes(line)
  }

  /** Names that bash's `echo` takes for options. */
  predicate EchoOption(name: string) {
    |name| >= 2 && name[0] == '-' && forall c :: c in name[1..] ==> c in "neE"
  }

  /** `echo "$name" | tr '[:upper:]' '[:lower:]'` */
  function DirName(name: string): string {
    if EchoOption(name) then "" else Lower(name)
  }

  /** The package that a line of the configuration asks for, "" for none. */
  function CfgLine(line: string, recipes: set<string>): string {
    if !Picked(line) then ""
    else
      var key := line[..EqualsAt(line)];
      var pkg := DirName(if PREFIX <= key then key[|PREFIX|..] else key);
      if pkg in recipes then pkg else ""
  }

  /** `add`: the empty name is passed over. */
  function Add(want: set<string>, name: string): set<string> {
    if name == "" then want else want + {name}
  }

  // ---- The files ----

  function ProfileNames(text: string): set<string>
    decreases |text|
  {
    if text == "" then {}
    else
      var n := NewlineAt(text);
      Add(if n == |text| then {} else ProfileNames(text[n + 1..]), ProfileLine(text[..n]))
  }

  function CfgNames(text: string, recipes: set<string>): set<string>
    decreases |text|
  {
    if text == "" then {}
    else
      var n := NewlineAt(text);
      Add(if n == |text| then {} else CfgNames(text[n + 1..], recipes), CfgLine(text[..n], recipes))
  }

  const CORE_DIRS: seq<string> := ["busybox", "runit"]

  /** Everything asked for, with or without a recipe. */
  function Asked(profile: Option<string>, cfg: Option<string>, recipes: set<string>): set<string> {
    {"busybox", "runit"} + ProfileNames(Get(profile, "")) + CfgNames(Get(cfg, ""), recipes)
  }

  /** The package set: nano brings ncurses, and what has no recipe is dropped. */
  function Wanted(profile: Option<string>, cfg: Option<string>, recipes: set<string>): set<string> {
    var asked := Asked(profile, cfg, recipes);
    (if "nano" in asked then asked + {"ncurses"} else asked) * recipes
  }

  // ---- What a profile lists ----

  /** A line of a profile: a package with blanks around it, or a comment or nothing behind blanks. */
  datatype ProfileEntry = Package(before: string, name: string, after: string) | Remark(before: string, text: string)

  predicate AllBlank(s: string) {
    forall c :: c in s ==> Blank(c)
  }

  predicate EntryOk(e: ProfileEntry) {
    match e
    case Package(before, name, after) =>
      && AllBlank(before) && AllBlank(after) && '\n' !in name
      && name != "" && name[0] != '#' && !Blank(name[0]) && !Blank(name[|name| - 1])
    case Remark(before, text) => AllBlank(before) && '\n' !in text && (text == "" || text[0] == '#')
  }

  function EntryLine(e: ProfileEntry): string {
    match e
    case Package(before, name, after) => before + name + after
    case Remark(before, text) => before + text
  }

  /** A file of such lines; the last newline may be missing. */
  function ProfileText(es: seq<ProfileEntry>, ended: bool): string {
    if es == [] then ""
    else EntryLine(es[0]) + (if |es| == 1 && !ended then "" else "\n") + ProfileText(es[1..], ended)
  }

  /** The packages of a list of lines. */
  function Listed(es: seq<ProfileEntry>): set<string> {
    set i | 0 <= i < |es| && es[i].Package? :: es[i].name
  }

  predicate AllEntriesOk(es: seq<ProfileEntry>) {
    forall i :: 0 <= i < |es| ==> EntryOk(es[i])
  }

  lemma {:induction false} BlanksLeftIs(blanks: string, rest: string)
    requires AllBlank(blanks) && (rest == "" || !Blank(rest[0]))
    ensures BlanksLeft(blanks + rest) == rest
  {
    if blanks == "" {
      assert blanks + rest == rest;
    } else {
      assert blanks[0] in blanks && forall c :: c in blanks[1..] ==> c in blanks;
      assert (blanks + rest)[1..] == blanks[1..] + rest;
      BlanksLeftIs(blanks[1..], rest);
    }
  }

  lemma {:induction false} BlanksRightIs(rest: string, blanks: string)
    requires AllBlank(blanks) && (rest == "" || !Blank(rest[|rest| - 1]))
    ensures BlanksRight(rest + blanks) == rest
  {
    if blanks == "" {
      assert rest + blanks == rest;
    } else {
      var n := |blanks| - 1;
      assert blanks[n] in blanks && forall c :: c in blanks[..n] ==> c in blanks;
      assert (rest + blanks)[..|rest| + n] == rest + blanks[..n];
      BlanksRightIs(rest, blanks[..n]);
    }
  }

  lemma {:induction false} BlanksRightKeeps(s: string)
    ensures BlanksRight(s) <= s
  {
    if s != "" && Blank(s[|s| - 1]) {
      BlanksRightKeeps(s[..|s| - 1]);
    }
  }

  lemma ProfileLineIs(e: ProfileEntry)
    requires EntryOk(e)
    ensures '\n' !in EntryLine(e)
    ensures ProfileLine(EntryLine(e)) == if e.Package? then e.name else ""
  {
    match e
    case Package(before, name, after) =>
      assert before + name + after == before + (name + after) && (name + after)[0] == name[0];
      BlanksLeftIs(before, name + after);
      BlanksRightIs(name, after);
    case Remark(before, text) =>
      BlanksLeftIs(before, text);
      BlanksRightKeeps(text);
  }

  /** The names read from a profile are exactly the packages it lists. */
  lemma {:induction false} ProfileNamesAre(es: seq<ProfileEntry>, ended: bool)
    requires AllEntriesOk(es)
    ensures ProfileNames(ProfileText(es, ended)) == Listed(es)
  {
    hide ProfileLine, EntryOk;
    if es == [] {
      assert Listed(es) == {};
    } else {
      assert EntryOk(es[0]);
      var line, rest := EntryLine(es[0]), ProfileText(es[1..], ended);
      var text := ProfileText(es, ended);
      ProfileLineIs(es[0]);
      ProfileNamesAre(es[1..], ended);
      ListedCons(es);
      NamesNonempty(es);
      if |es| == 1 && !ended {
        assert rest == "" && text == line && line[..|line|] == line;
        LineOnly(line);
      } else {
        assert text == line + "\n" + rest;
        NewlineAtIs(line, rest);
        assert text[..|line|] == line && text[|line| + 1..] == rest;
      }
    }
  }

  lemma NamesNonempty(es: seq<ProfileEntry>)
    requires AllEntriesOk(es)
    ensures "" !in Listed(es)
  {
    forall i | 0 <= i < |es| && es[i].Package? ensures es[i].name != "" {
      assert EntryOk(es[i]);
    }
  }

  lemma ListedCons(es: seq<ProfileEntry>)
    requires es != []
    ensures Listed(es) == Listed(es[1..]) + if es[0].Package? then {es[0].name} else {}
  {
    forall i | 0 <= i < |es| && es[i].Package? && i > 0 ensures es[i].name in Listed(es[1..]) {
      assert es[1..][i - 1] == es[i];
    }
    assert forall i | 0 <= i < |es| - 1 :: es[1..][i] == es[i + 1];
  }

  lemma {:induction false} LineOnly(line: string)
    requires '\n' !in line
    ensures NewlineAt(line) == |line|
  {
    if line != "" {
      assert line[0] in line && forall c :: c in line[1..] ==> c in line;
      LineOnly(line[1..]);
    }
  }

  lemma TrimSplits(line: string) returns (e: ProfileEntry)
    requires '\n' !in line
    ensures EntryOk(e) && EntryLine(e) == line
  {
    var before, rest := SplitLeft(line);
    if rest == "" || rest[0] == '#' {
      e := Remark(before, rest);
    } else {
      var name, after := SplitRight(rest);
      e := Package(before, name, after);
      assert before + name + after == before + (name + after);
    }
  }

  lemma {:induction false} SplitLeft(line: string) returns (before: string, rest: string)
    ensures line == before + rest && AllBlank(before) && (rest == "" || !Blank(rest[0]))
  {
    if line != "" && Blank(line[0]) {
      before, rest := SplitLeft(line[1..]);
      before := [line[0]] + before;
    } else {
      before, rest := "", line;
    }
  }

  lemma {:induction false} SplitRight(line: string) returns (name: string, after: string)
    ensures line == name + after && AllBlank(after) && (name == "" || !Blank(name[|name| - 1]))
    ensures line != "" && !Blank(line[0]) ==> name != "" && name[0] == line[0]
  {
    if line != "" && Blank(line[|line| - 1]) {
      name, after := SplitRight(line[..|line| - 1]);
      after := after + [line[|line| - 1]];
    } else {
      name, after := line, "";
    }
  }

  lemma ProfileCons(e: ProfileEntry, more: seq<ProfileEntry>, ended: bool)
    requires EntryOk(e) && AllEntriesOk(more) && (more == [] ==> ended)
    ensures ProfileText([e] + more, ended) == EntryLine(e) + "\n" + ProfileText(more, ended)
    ensures AllEntriesOk([e] + more)
  {
    hide EntryOk, EntryLine;
    assert ([e] + more)[1..] == more;
  }

  lemma ProfileLast(e: ProfileEntry)
    requires EntryOk(e)
    ensures ProfileText([e], false) == EntryLine(e) && AllEntriesOk([e])
  {
    hide EntryOk, EntryLine;
    assert [e][1..] == [];
  }

  lemma ProfileEmpty(ended: bool)
    ensures ProfileText([], ended) == "" && AllEntriesOk([])
  {
  }

  /** Every profile is the text of such a list. */
  lemma {:induction false} EveryProfileLists(text: string) returns (es: seq<ProfileEntry>, ended: bool)
    ensures AllEntriesOk(es) && ProfileText(es, ended) == text && (es == [] ==> ended)
    decreases |text|
  {
    hide EntryOk, EntryLine, ProfileText, AllEntriesOk;
    ProfileEmpty(true);
    if text == "" {
      es, ended := [], true;
    } else {
      var n := NewlineAt(text);
      var e := TrimSplits(text[..n]);
      if n == |text| {
        es, ended := [e], false;
        ProfileLast(e);
        assert text[..n] == text;
      } else {
        var more;
        more, ended := EveryProfileLists(text[n + 1..]);
        es := [e] + more;
        ProfileCons(e, more, ended);
        assert text == text[..n] + "\n" + text[n + 1..];
      }
    }
  }

  // ---- Order ----

  predicate Less(a: string, b: string) {
    b != "" && (a == "" || a[0] < b[0] || (a[0] == b[0] && Less(a[1..], b[1..])))
  }

  predicate Ascending(names: seq<string>) {
    forall i, j :: 0 <= i < j < |names| ==> Less(names[i], names[j])
  }

  function Elements(names: seq<string>): set<string> {
    set x | x in names
  }

  function CoreFirst(want: set<string>): seq<string> {
    (if "busybox" in want then ["busybox"] else []) + (if "runit" in want then ["runit"] else [])
  }

  /** Core first, then the rest in byte order, each once. */
  predicate Ordered(names: seq<string>, want: set<string>) {
    var core := CoreFirst(want);
    core <= names && Ascending(names[|core|..]) && Elements(names[|core|..]) == want - {"busybox", "runit"}
  }

  lemma {:induction false} LessTrans(a: string, b: string, c: string)
    requires Less(a, b) && Less(b, c)
    ensures Less(a, c)
  {
    if a != "" && a[0] == b[0] == c[0] {
      LessTrans(a[1..], b[1..], c[1..]);
    }
  }

  lemma {:induction false} LessTotal(a: string, b: string)
    ensures Less(a, b) || Less(b, a) || a == b
    ensures !(Less(a, b) && Less(b, a)) && !Less(a, a)
  {
    if a != "" && b != "" {
      LessTotal(a[1..], b[1..]);
      LessTotal(a[1..], a[1..]);
      assert a == [a[0]] + a[1..] && b == [b[0]] + b[1..];
    } else if a != "" {
      LessTotal(a[1..], a[1..]);
    }
  }

  /** `sort`, one name a line. */
  method Sort(names: set<string>) returns (sorted: seq<string>)
    ensures Ascending(sorted) && Elements(sorted) == names
  {
    sorted := [];
    var rest := names;
    while rest != {}
      invariant rest <= names && Ascending(sorted) && Elements(sorted) == names - rest
      decreases |rest|
    {
      var name :| name in rest;
      sorted := Insert(sorted, name);
      rest := rest - {name};
    }
  }

  method Insert(names: seq<string>, name: string) returns (more: seq<string>)
    requires Ascending(names) && name !in names
    ensures Ascending(more) && Elements(more) == Elements(names) + {name}
  {
    var i := 0;
    while i < |names| && Less(names[i], name)
      invariant 0 <= i <= |names|
      invariant forall j :: 0 <= j < i ==> Less(names[j], name)
    {
      i := i + 1;
    }
    forall j | i <= j < |names| ensures Less(name, names[j]) {
      LessTotal(name, names[i]);
      if i < j {
        LessTrans(name, names[i], names[j]);
      }
    }
    more := names[..i] + [name] + names[i..];
  }

  lemma {:induction false} AscendingUnique(a: seq<string>, b: seq<string>)
    requires Ascending(a) && Ascending(b) && Elements(a) == Elements(b)
    ensures a == b
  {
    if a == [] {
      if b != [] {
        HeadIsElement(b);
      }
    } else {
      HeadIsElement(a);
      assert b != [];
      HeadIsElement(b);
      HeadIsLeast(a, b[0]);
      HeadIsLeast(b, a[0]);
      LessTotal(a[0], b[0]);
      TailElements(a);
      TailElements(b);
      AscendingUnique(a[1..], b[1..]);
      assert a == [a[0]] + a[1..] && b == [b[0]] + b[1..];
    }
  }

  lemma HeadIsElement(a: seq<string>)
    requires a != []
    ensures a[0] in Elements(a)
  {
  }

  lemma HeadIsLeast(a: seq<string>, x: string)
    requires Ascending(a) && x in a
    ensures x == a[0] || Less(a[0], x)
  {
  }

  lemma TailElements(a: seq<string>)
    requires Ascending(a) && a != []
    ensures Ascending(a[1..]) && Elements(a[1..]) == Elements(a) - {a[0]}
  {
    forall j | 1 <= j < |a| ensures a[j] != a[0] {
      LessTotal(a[0], a[j]);
    }
  }

  /** The order is stable: the set decides the list. */
  lemma OrderedUnique(a: seq<string>, b: seq<string>, want: set<string>)
    requires Ordered(a, want) && Ordered(b, want)
    ensures a == b
  {
    var core := CoreFirst(want);
    AscendingUnique(a[|core|..], b[|core|..]);
    assert a == core + a[|core|..] && b == core + b[|core|..];
  }

  lemma AscendingDistinct(a: seq<string>)
    requires Ascending(a)
    ensures NoRepeats(a)
  {
    forall i, j | 0 <= i < j < |a| ensures a[i] != a[j] {
      LessTotal(a[i], a[j]);
    }
  }

  predicate NoRepeats(names: seq<string>) {
    forall i, j :: 0 <= i < j < |names| ==> names[i] != names[j]
  }

  lemma NoRepeatsConcat(a: seq<string>, b: seq<string>)
    requires NoRepeats(a) && NoRepeats(b) && Elements(a) !! Elements(b)
    ensures NoRepeats(a + b) && Elements(a + b) == Elements(a) + Elements(b)
  {
    var c := a + b;
    forall i, j | 0 <= i < j < |c| ensures c[i] != c[j] {
      assert i < |a| <= j ==> c[i] in Elements(a) && c[j] in Elements(b);
    }
  }

  lemma CoreFirstHolds(want: set<string>)
    ensures NoRepeats(CoreFirst(want)) && Elements(CoreFirst(want)) == want * {"busybox", "runit"}
  {
    assert |"busybox"| != |"runit"|;
  }

  /** The list holds exactly the set, without duplicates. */
  lemma OrderedHolds(names: seq<string>, want: set<string>)
    requires Ordered(names, want)
    ensures Elements(names) == want && NoRepeats(names)
  {
    var core := CoreFirst(want);
    var rest := names[|core|..];
    assert names == core + rest;
    AscendingDistinct(rest);
    CoreFirstHolds(want);
    hide Ascending, Elements, NoRepeats, CoreFirst;
    NoRepeatsConcat(core, rest);
  }

  /** The order of `LC_ALL=C sort`: at the first place where two names differ the smaller byte, or the end, comes first. */
  lemma {:induction false} LessMeans(a: string, b: string)
    ensures Less(a, b) <==> exists n :: 0 <= n <= |a| && n < |b| && a[..n] == b[..n] && (n == |a| || a[n] < b[n])
  {
    if a != "" && b != "" && a[0] == b[0] {
      LessMeans(a[1..], b[1..]);
      if n :| 0 <= n < |b| && n <= |a| && a[..n] == b[..n] && (n == |a| || a[n] < b[n]) {
        assert n > 0 && a[1..][..n - 1] == a[..n][1..] && b[1..][..n - 1] == b[..n][1..];
        assert a[1..][..n - 1] == b[1..][..n - 1];
      }
      if n :| 0 <= n < |b[1..]| && n <= |a[1..]| && a[1..][..n] == b[1..][..n] && (n == |a[1..]| || a[1..][n] < b[1..][n]) {
        assert a[..n + 1] == [a[0]] + a[1..][..n] && b[..n + 1] == [b[0]] + b[1..][..n];
      }
    } else if b != "" {
      assert a[..0] == b[..0];
    }
  }

  /** busybox comes first, runit after nothing else, and the others in byte order. */
  lemma OrderedMeans(names: seq<string>, want: set<string>, i: nat, j: nat)
    requires Ordered(names, want) && i < j < |names|
    ensures names[j] != "busybox" && (names[j] == "runit" ==> i == 0 && names[i] == "busybox")
    ensures names[i] !in {"busybox", "runit"} ==>
              var a, b := names[i], names[j];
              exists n :: 0 <= n <= |a| && n < |b| && a[..n] == b[..n] && (n == |a| || a[n] < b[n])
  {
    var core := CoreFirst(want);
    var rest := names[|core|..];
    assert |"busybox"| != |"runit"|;
    if j >= |core| {
      assert names[j] == rest[j - |core|] && rest[j - |core|] in Elements(rest);
    }
    if names[i] !in {"busybox", "runit"} {
      assert i >= |core| && names[i] == rest[i - |core|];
      LessMeans(names[i], names[j]);
    }
  }

  // ---- The script ----

  method ReadProfile(file: Option<string>, before: set<string>) returns (want: set<string>)
    ensures want == before + ProfileNames(Get(file, ""))
  {
    want := before;
    if file.None? {
      return;
    }
    var text := file.value;
    while text != ""
      invariant want + ProfileNames(text) == before + ProfileNames(file.value)
      decreases |text|
    {
      var n := NewlineAt(text);
      want := Add(want, ProfileLine(text[..n]));
      text := if n == |text| then "" else text[n + 1..];
    }
  }

  method ReadCfg(file: Option<string>, recipes: set<string>, before: set<string>) returns (want: set<string>)
    ensures want == before + CfgNames(Get(file, ""), recipes)
  {
    hide CfgLine;
    want := before;
    if file.None? {
      return;
    }
    var text := file.value;
    while text != ""
      invariant want + CfgNames(text, recipes) == before + CfgNames(file.value, recipes)
      decreases |text|
    {
      var n := NewlineAt(text);
      want := Add(want, CfgLine(text[..n], recipes));
      text := if n == |text| then "" else text[n + 1..];
    }
  }

  method DropUnready(asked: set<string>, recipes: set<string>) returns (want: set<string>)
    ensures want == asked * recipes
  {
    want := asked;
    var unseen := asked;
    while unseen != {}
      invariant want == asked * recipes + unseen && unseen <= asked
      decreases |unseen|
    {
      var pkg :| pkg in unseen;
      unseen := unseen - {pkg};
      if pkg !in recipes {
        want := want - {pkg};
      }
    }
  }

  method Order(names: set<string>) returns (ordered: seq<string>)
    ensures Ordered(ordered, names)
  {
    hide Ascending, Elements;
    assert |"busybox"| != |"runit"|;
    var want := names;
    ordered := [];
    if "busybox" in want {
      ordered := ["busybox"];
      want := want - {"busybox"};
    }
    if "runit" in want {
      ordered := ordered + ["runit"];
      want := want - {"runit"};
    }
    assert ordered == CoreFirst(names);
    assert want == names - {"busybox", "runit"};
    var rest := Sort(want);
    ordered := ordered + rest;
    assert ordered[|CoreFirst(names)|..] == rest;
  }

  method Resolve(profile: Option<string>, cfg: Option<string>, recipes: set<string>) returns (ordered: seq<string>)
    ensures Ordered(ordered, Wanted(profile, cfg, recipes))
  {
    hide ProfileNames, CfgNames, Ordered;
    var want := {"busybox", "runit"};
    want := ReadProfile(profile, want);
    want := ReadCfg(cfg, recipes, want);
    assert want == Asked(profile, cfg, recipes);
    if "nano" in want {
      want := want + {"ncurses"};
    }
    want := DropUnready(want, recipes);
    ordered := Order(want);
  }

  // ---- Agreement of the two readers ----

  /** Values that the two readers take differently: "yes", "1", and anything that ends in "=y". */
  predicate Agreed(val: string) {
    Lower(val) != "yes" && Lower(val) != "1" && !EndsInYes(val)
  }

  /** On a line that isdconfig.py writes, the resolver picks the package up exactly when isdconfig.py calls it on. */
  lemma ReadersAgree(short: string, val: string)
    ensures (Picked(PkgKey(short) + "=" + val) <==> Yes(val)) <==> Agreed(val)
  {
    var line := PkgKey(short) + "=" + val;
    PickedMeans(short, val);
    LowerIs(val);
    hide Lower, Picked;
    if |val| == 1 {
      assert Lower(val) == [LowerChar(val[0])];
    } else if EndsInYes(val) {
      assert Lower(val)[|val| - 2] == '=';
      assert "yes"[1] == 'e';
    }
  }

  lemma PickedMeans(short: string, val: string)
    ensures Picked(PkgKey(short) + "=" + val) <==> val == "y" || val == "Y" || EndsInYes(val)
  {
    var line := PkgKey(short) + "=" + val;
    assert PREFIX <= line;
    if |val| == 1 {
      assert line[|line| - 2] == '=' && line[|line| - 1] == val[0];
    } else if |val| >= 2 {
      assert line[|line| - 2] == val[|val| - 2] && line[|line| - 1] == val[|val| - 1];
    } else {
      assert line[|line| - 1] == '=';
    }
  }

  lemma {:induction false} NewlineAtIs(line: string, rest: string)
    requires '\n' !in line
    ensures NewlineAt(line + "\n" + rest) == |line|
  {
    var text := line + "\n" + rest;
    if line != "" {
      assert line[0] in line && forall c :: c in line[1..] ==> c in line;
      assert text[1..] == line[1..] + "\n" + rest;
      NewlineAtIs(line[1..], rest);
    }
  }

  lemma CfgNamesLine(line: string, rest: string, recipes: set<string>)
    requires SingleLine(line)
    ensures CfgNames(line + "\n" + rest, recipes) == Add(CfgNames(rest, recipes), CfgLine(line, recipes))
  {
    hide CfgLine, Add;
    assert LineBreak('\n');
    NewlineAtIs(line, rest);
    var text := line + "\n" + rest;
    assert text[..|line|] == line && text[|line| + 1..] == rest;
  }

  lemma {:induction false} CommentsAskNothing(ls: seq<string>, more: seq<string>, recipes: set<string>)
    requires AllSkipped(ls)
    ensures CfgNames(Lines(ls + more), recipes) == CfgNames(Lines(more), recipes)
  {
    hide CfgNames, LineBreak;
    if ls == [] {
      assert ls + more == more;
    } else {
      assert (ls + more)[1..] == ls[1..] + more;
      CfgNamesLine(ls[0], Lines(ls[1..] + more), recipes);
      SkippedNotPicked(ls[0]);
      CommentsAskNothing(ls[1..], more, recipes);
    }
  }

  lemma SkippedNotPicked(line: string)
    requires Skipped(line)
    ensures !Picked(line)
  {
    assert PREFIX[0] == 'C';
  }

  lemma {:induction false} KeyLinesAsk(keys: seq<string>, data: Config, recipes: set<string>, p: string)
    requires AllKeysOk(keys) && Writable(keys, data)
    ensures p in CfgNames(Lines(KeyLines(keys, data)), recipes) <==>
            p != "" && exists k :: k in keys && CfgLine(k + "=" + ValueOf(data, k), recipes) == p
  {
    hide CfgNames, CfgLine, KeyOk, ValueOf, Trimmed, SingleLine, LineBreak;
    if keys == [] {
      assert CfgNames("", recipes) == {} by {
        NoText(recipes);
      }
    } else {
      var rest := keys[1..];
      assert keys[0] in keys && forall k :: k in keys <==> k == keys[0] || k in rest;
      AssignmentIsLine(keys[0], ValueOf(data, keys[0]));
      CfgNamesLine(keys[0] + "=" + ValueOf(data, keys[0]), Lines(KeyLines(rest, data)), recipes);
      KeyLinesAsk(rest, data, recipes, p);
    }
  }

  lemma NoText(recipes: set<string>)
    ensures CfgNames("", recipes) == {}
  {
  }

  lemma CfgLineOf(short: string, val: string, recipes: set<string>)
    requires PlainName(short)
    ensures CfgLine(PkgKey(short) + "=" + val, recipes) ==
            if Picked(PkgKey(short) + "=" + val) && Lower(short) in recipes then Lower(short) else ""
  {
    hide Picked, Lower;
    var key := PkgKey(short);
    PkgKeyOk(short);
    assert key + "=" + val == key + ("=" + val);
    EqualsAtIs(key, "=" + val);
    assert (key + "=" + val)[..|key|] == key && PREFIX <= key && key[|PREFIX|..] == short;
    NotAnOption(short);
  }

  /** A name that bash's `echo` takes for options asks for nothing, whatever recipes there are. */
  lemma OptionAsksNothing(flags: string, val: string, recipes: set<string>)
    requires flags != "" && forall c :: c in flags ==> c in {'n', 'e', 'E'}
    ensures CfgLine(PkgKey("-" + flags) + "=" + val, recipes) == ""
  {
    hide Picked, Lower;
    var key := PkgKey("-" + flags);
    assert '=' !in key;
    assert key + "=" + val == key + ("=" + val);
    EqualsAtIs(key, "=" + val);
    assert (key + "=" + val)[..|key|] == key && PREFIX <= key && key[|PREFIX|..] == "-" + flags;
    assert ("-" + flags)[1..] == flags;
  }

  lemma NotAnOption(short: string)
    requires PlainName(short)
    ensures !EchoOption(short)
  {
    if |short| > 0 {
      assert short[0] in short;
    }
  }

  lemma TopAsksNothing(val: string, recipes: set<string>)
    ensures CfgLine(TOP_KEY + "=" + val, recipes) == ""
  {
    assert TOP_KEY[7] == 'A' && PREFIX[7] == 'P';
    assert (TOP_KEY + "=" + val)[7] == TOP_KEY[7];
  }

  /** Both readers take every package value the same way. */
  predicate AllAgreed(data: Config) {
    forall s :: s in CORE + EXTRAS ==> PkgKey(s) in data && Agreed(data[PkgKey(s)])
  }

  lemma NamesNotEmpty()
    ensures forall s :: s in CORE + EXTRAS ==> s != "" && Lower(s) != ""
  {
    assert forall s :: s in CORE + EXTRAS ==> s != "";
  }

  /** A written configuration asks the resolver for exactly the packages it has on that have a recipe. */
  lemma WrittenAsks(data: Config, recipes: set<string>, p: string)
    requires HasKeys(data) && AllAgreed(data)
    ensures p in CfgNames(Write(data), recipes) <==>
            p in recipes && exists s :: s in CORE + EXTRAS && Enabled(data, s) && Lower(s) == p
  {
    hide HEADER, CfgNames, CfgLine, KeyOk, Plain, Yes, Agreed, Picked, Lower, TOP_KEY, PkgKey, CORE, EXTRAS;
    var keys := Keys();
    HeaderSkipped();
    KeysOkFrom(0);
    assert keys[0..] == keys;
    WritableKeys(data);
    CommentsAskNothing(HEADER, KeyLines(keys, data), recipes);
    KeyLinesAsk(keys, data, recipes, p);
    NamesNotEmpty();
    if k :| k in keys && p != "" && CfgLine(k + "=" + ValueOf(data, k), recipes) == p {
      TopAsksNothing(ValueOf(data, k), recipes);
      var i :| 0 <= i < |keys| && keys[i] == k;
      var s := (CORE + EXTRAS)[i];
      KeyAsks(data, recipes, s);
    }
    forall s | s in CORE + EXTRAS && Enabled(data, s) && Lower(s) == p && p in recipes
      ensures p in CfgNames(Write(data), recipes)
    {
      ShortIsKey(s);
      KeyAsks(data, recipes, s);
    }
  }

  lemma WritableKeys(data: Config)
    requires HasKeys(data)
    ensures Writable(Keys(), data)
  {
    hide Keys;
  }

  lemma KeyAsks(data: Config, recipes: set<string>, s: string)
    requires HasKeys(data) && AllAgreed(data) && s in CORE + EXTRAS
    ensures CfgLine(PkgKey(s) + "=" + ValueOf(data, PkgKey(s)), recipes) ==
            if Enabled(data, s) && Lower(s) in recipes then Lower(s) else ""
  {
    hide CfgLine, Yes, Agreed, Picked, Lower, PkgKey, Default;
    ShortsPlain();
    ReadersAgree(s, data[PkgKey(s)]);
    CfgLineOf(s, data[PkgKey(s)], recipes);
  }

  lemma CoreDirs()
    ensures forall s :: s in CORE ==> Lower(s) in {"busybox", "runit"}
    ensures Lower("NANO") == "nano" && "NANO" in EXTRAS
  {
    LowerCore();
    LowerNames();
  }

  lemma LowerCore()
    ensures Lower("BUSYBOX") == "busybox" && Lower("RUNIT") == "runit"
  {
    LowerIs("BUSYBOX");
    LowerIs("RUNIT");
    hide Lower;
    assert |"BUSYBOX"| == |"busybox"| == 7;
    assert |"RUNIT"| == |"runit"| == 5;
    assert forall i :: 0 <= i < 7 ==> LowerChar("BUSYBOX"[i]) == "busybox"[i];
    assert forall i :: 0 <= i < 5 ==> LowerChar("RUNIT"[i]) == "runit"[i];
  }

  lemma {:induction false} LowerInjective(s: string, t: string)
    requires PlainName(s) && PlainName(t) && Lower(s) == Lower(t)
    ensures s == t
  {
    if s != "" {
      assert |Lower(t)| > 0;
      assert t != "" && s[0] in s && t[0] in t;
      assert forall c :: c in s[1..] ==> c in s;
      assert forall c :: c in t[1..] ==> c in t;
      assert Lower(s)[1..] == Lower(s[1..]) && Lower(t)[1..] == Lower(t[1..]);
      LowerInjective(s[1..], t[1..]);
      assert LowerChar(s[0]) == Lower(s)[0] == Lower(t)[0] == LowerChar(t[0]);
      assert s == [s[0]] + s[1..] && t == [t[0]] + t[1..];
    } else {
      assert t == "" || |Lower(t)| > 0;
    }
  }

  /** Only NANO has the directory nano. */
  lemma OnlyNano(s: string)
    requires PlainName(s) && Lower(s) == "nano"
    ensures s == "NANO"
  {
    LowerNames();
    ShortsPlain();
    LowerInjective(s, "NANO");
  }

  /** Some extra with this directory is on. */
  predicate ExtraOn(data: Config, p: string) {
    exists s :: s in EXTRAS && Enabled(data, s) && Lower(s) == p
  }

  lemma WantedMeans(profile: Option<string>, cfg: Option<string>, recipes: set<string>, p: string)
    ensures var listed := ProfileNames(Get(profile, "")); var asks := CfgNames(Get(cfg, ""), recipes);
            p in Wanted(profile, cfg, recipes) <==>
            p in recipes && (|| p in {"busybox", "runit"} || p in listed || p in asks
                             || (p == "ncurses" && ("nano" in listed || "nano" in asks)))
  {
    assert "nano" !in {"busybox", "runit"} by {
      assert |"nano"| == 4 && |"busybox"| == 7 && |"runit"| == 5;
    }
    hide ProfileNames, CfgNames;
  }

  /** What a written configuration asks for beyond core comes from the extras. */
  lemma WrittenExtras(data: Config, recipes: set<string>, p: string)
    requires HasKeys(data) && AllAgreed(data) && p !in {"busybox", "runit"}
    ensures p in CfgNames(Write(data), recipes) <==> p in recipes && ExtraOn(data, p)
  {
    CoreDirs();
    hide HasKeys, AllAgreed, CfgNames, Enabled, Lower, Write, CORE, EXTRAS;
    WrittenAsks(data, recipes, p);
  }

  lemma NanoOn(data: Config)
    ensures ExtraOn(data, "nano") <==> Enabled(data, "NANO")
  {
    CoreDirs();
    ShortsPlain();
    hide Lower, Enabled, CORE, EXTRAS, PlainName;
    forall s | s in EXTRAS && Lower(s) == "nano" ensures s == "NANO" {
      OnlyNano(s);
    }
  }

  /** On a configuration that isdconfig.py wrote. */
  lemma WantedWritten(profile: Option<string>, data: Config, recipes: set<string>, p: string)
    requires HasKeys(data) && AllAgreed(data)
    ensures var listed := ProfileNames(Get(profile, ""));
            p in Wanted(profile, Some(Write(data)), recipes) <==>
            p in recipes && (|| p in {"busybox", "runit"} || p in listed || ExtraOn(data, p)
                             || (p == "ncurses" && ("nano" in listed || (Enabled(data, "NANO") && "nano" in recipes))))
  {
    assert "nano" !in {"busybox", "runit"} by {
      assert |"nano"| == 4 && |"busybox"| == 7 && |"runit"| == 5;
    }
    hide HasKeys, AllAgreed, ProfileNames, CfgNames, Enabled, Write, Wanted, ExtraOn;
    WantedMeans(profile, Some(Write(data)), recipes, p);
    NanoOn(data);
    WrittenExtras(data, recipes, "nano");
    if p !in {"busybox", "runit"} {
      WrittenExtras(data, recipes, p);
    }
  }

  /**
   * On a configuration that isdconfig.py wrote, the package set is exactly the members with a recipe of core, the
   * packages that the profile lists and the extras that are on, with ncurses added beside nano. A missing profile
   * lists nothing.
   */
  lemma WrittenResolve(es: seq<ProfileEntry>, ended: bool, missing: bool, data: Config, recipes: set<string>, p: string)
    requires HasKeys(data) && AllAgreed(data) && AllEntriesOk(es) && (missing ==> es == [])
    ensures var profile := if missing then None else Some(ProfileText(es, ended));
            p in Wanted(profile, Some(Write(data)), recipes) <==>
            p in recipes && (|| p in {"busybox", "runit"} || p in Listed(es) || ExtraOn(data, p)
                             || (p == "ncurses" &&
                                 ("nano" in Listed(es) || (Enabled(data, "NANO") && "nano" in recipes))))
  {
    hide HasKeys, AllAgreed, ProfileNames, Enabled, Write, Wanted, ExtraOn, Listed, ProfileText, EntryOk;
    var profile := if missing then None else Some(ProfileText(es, ended));
    ProfileNamesAre(es, ended);
    NoProfile();
    WantedWritten(profile, data, recipes, p);
  }

  lemma NoProfile()
    ensures ProfileNames("") == {} && forall ended :: ProfileText([], ended) == ""
  {
  }

  /** For every profile and configuration, nano brings ncurses when ncurses has a recipe. */
  lemma NanoClosed(profile: Option<string>, cfg: Option<string>, recipes: set<string>)
    ensures "nano" in Wanted(profile, cfg, recipes) && "ncurses" in recipes ==> "ncurses" in Wanted(profile, cfg, recipes)
  {
    assert "nano" != "ncurses" by {
      assert |"nano"| != |"ncurses"|;
    }
    hide Asked;
  }

  /** What `set` or `validate` leaves on after scrubbing, the resolver builds. */
  lemma ScrubbedResolve(profile: Option<string>, data: Config, w: World, s: string)
    requires HasKeys(data) && AllAgreed(data) && s in EXTRAS
    ensures var left := Some(Write(Scrub(EXTRAS, data, w)));
            Enabled(Loaded(left), s) ==> Lower(s) in Wanted(profile, left, w.recipes)
  {
    var now := Scrub(EXTRAS, data, w);
    ExtrasAreNotCore();
    hide HasKeys, Enabled, Loaded, Write, Scrub, Wanted, EXTRAS, CORE, Lower, AllAgreed;
    ScrubbedHasKeys(data, w);
    ScrubbedAgreed(data, w);
    ScrubbedPackage(data, w, s);
    ScrubAt(EXTRAS, data, w, s);
    WantedWritten(profile, now, w.recipes, Lower(s));
  }

  lemma ScrubbedAgreed(data: Config, w: World)
    requires AllAgreed(data)
    ensures AllAgreed(Scrub(EXTRAS, data, w))
  {
    assert Agreed("n") by {
      assert Lower("n") == "n" by {
        assert "n"[1..] == "";
      }
    }
    hide Agreed, PkgKey, Scrub, CORE, EXTRAS, Bad;
    forall s | s in CORE + EXTRAS
      ensures PkgKey(s) in Scrub(EXTRAS, data, w) && Agreed(Scrub(EXTRAS, data, w)[PkgKey(s)])
    {
      ScrubAt(EXTRAS, data, w, s);
    }
  }

  /** A package set to "yes" is on for isdconfig.py and not for the resolver; "=y" is the other way round. */
  lemma YesIsReadDifferently()
    ensures Yes("yes") && !Picked(PkgKey("DOOM") + "=" + "yes")
    ensures !Yes("=y") && Picked(PkgKey("DOOM") + "=" + "=y")
  {
    LowerIs("yes");
    LowerIs("=y");
    PickedMeans("DOOM", "yes");
    PickedMeans("DOOM", "=y");
    hide Lower, Picked;
    assert forall i :: 0 <= i < 3 ==> LowerChar("yes"[i]) == "yes"[i];
    assert Lower("yes") == "yes";
    assert |"yes"| == 3 && |"=y"| == 2 && |"y"| == |"1"| == |"Y"| == 1;
  }
}
