/** `parse_log` of busybox_applet_matrix.py on the guest's log. */
module MatrixParse {
  import opened Text
  import opened Fields
  import opened Classify
  import opened MatrixLog

  /** `\s`, on ASCII. */
  predicate Blank(c: char) {
    IsSpace(c) || 28 <= c as int <= 31
  }

  /** `\S+` takes all it can: what follows in the pattern starts with a space. */
  function Word(s: string): (w: string)
    ensures w <= s && forall c :: c in w ==> !Blank(c)
  {
    if s == "" || Blank(s[0]) then "" else [s[0]] + Word(s[1..])
  }

  function After(s: string, literal: string): Option<string> {
    if literal <= s then Some(s[|literal|..]) else None
  }

  /** `-?\d+` */
  function IntText(s: string): (t: string)
    ensures t <= s
  {
    LeadingDigitsPrefix(s);
    if s != "" && s[0] == '-' then
      LeadingDigitsPrefix(s[1..]);
      if LeadingDigits(s[1..]) == "" then "" else "-" + LeadingDigits(s[1..])
    else LeadingDigits(s)
  }

  lemma {:induction false} LeadingDigitsPrefix(s: string)
    ensures LeadingDigits(s) <= s
  {
    if s != "" && IsDigit(s[0]) {
      LeadingDigitsPrefix(s[1..]);
    }
  }

  datatype Entry = Entry(applet: string, status: string, ec: string, reason: string)
  datatype Match = NoMatch | Found(entry: Entry, rest: string)

  const KEY := "BBMATRIX applet="

  /** The pattern at the start of a text. */
  function MatchHere(s: string): (m: Match)
    ensures m.Found? ==> KEY <= s && |m.rest| < |s|
  {
    match After(s, KEY)
    case None => NoMatch
    case Some(s1) =>
      var applet := Word(s1);
      match After(s1[|applet|..], " status=")
      case None => NoMatch
      case Some(s2) =>
        var status := Word(s2);
        match After(s2[|status|..], " ec=")
        case None => NoMatch
        case Some(s3) =>
          var ec := IntText(s3);
          match After(s3[|ec|..], " reason=")
          case None => NoMatch
          case Some(s4) =>
            var reason := Word(s4);
            if applet == "" || status == "" || ec == "" || reason == "" then NoMatch
            else Found(Entry(applet, status, ec, reason), s4[|reason|..])
  }

  /** `LINE_RE.finditer(text)` */
  function Scan(text: string): seq<Entry>
    decreases |text|
  {
    if text == "" then []
    else match MatchHere(text)
         case Found(e, rest) => [e] + Scan(rest)
         case NoMatch => Scan(text[1..])
  }

  /** `key in text` */
  predicate HasKey(text: string, key: string) {
    text != "" && (key <= text || HasKey(text[1..], key))
  }

  function Detail(e: Entry): string {
    "busybox-matrix(ec=" + e.ec + if e.reason == "-" then ")" else "," + e.reason + ")"
  }

  /** The dictionary: the last line of an applet counts. */
  function Table(es: seq<Entry>): map<string, (string, string)> {
    if es == [] then map[]
    else var e := es[|es| - 1]; Table(es[..|es| - 1])[e.applet := (e.status, Detail(e))]
  }

  /** `parse_log`: refused without BBMATRIX_OK or without any line. */
  function ParseLog(text: string): Option<map<string, (string, string)>> {
    if !HasKey(text, "BBMATRIX_OK") || Scan(text) == [] then None else Some(Table(Scan(text)))
  }

  method Parse(text: string) returns (result: Option<map<string, (string, string)>>)
    ensures result == ParseLog(text)
  {
    hide Scan, HasKey, Detail;
    if !HasKey(text, "BBMATRIX_OK") {
      return None;
    }
    var table: map<string, (string, string)> := map[];
    var es := Scan(text);
    var i := 0;
    while i < |es|
      invariant 0 <= i <= |es| && table == Table(es[..i])
      invariant i > 0 ==> table != map[]
    {
      var e := es[i];
      assert es[..i + 1][..i] == es[..i];
      table := table[e.applet := (e.status, Detail(e))];
      assert e.applet in table;
      i := i + 1;
    }
    assert es[..i] == es;
    if table == map[] {
      return None;
    }
    return Some(table);
  }

  /** The last line of an applet gives its status, with the exit code and, when there is one, the reason as evidence. */
  lemma {:induction false} TableAt(es: seq<Entry>, i: nat)
    requires i < |es| && forall j :: i < j < |es| ==> es[j].applet != es[i].applet
    ensures es[i].applet in Table(es)
    ensures Table(es)[es[i].applet] ==
            (es[i].status, if es[i].reason == "-" then "busybox-matrix(ec=" + es[i].ec + ")"
                           else "busybox-matrix(ec=" + es[i].ec + "," + es[i].reason + ")")
  {
    var n := |es| - 1;
    if i < n {
      TableAt(es[..n], i);
    } else {
      assert "busybox-matrix(ec=" + es[i].ec + ("," + es[i].reason + ")") ==
             "busybox-matrix(ec=" + es[i].ec + "," + es[i].reason + ")";
    }
  }

  lemma {:induction false} OnlyListed(es: seq<Entry>, applet: string)
    requires applet in Table(es)
    ensures exists i :: 0 <= i < |es| && es[i].applet == applet
  {
    var n := |es| - 1;
    if es != [] && es[n].applet != applet {
      OnlyListed(es[..n], applet);
      var i :| 0 <= i < n && es[..n][i].applet == applet;
      assert es[i].applet == applet;
    }
  }

  // ---- Lines without a match ----

  /** No two adjacent B, none at the end. */
  predicate NoPair(s: string) {
    forall i :: 0 <= i < |s| && s[i] == 'B' ==> i + 1 < |s| && s[i + 1] != 'B'
  }

  predicate NoB(s: string) {
    'B' !in s
  }

  /** A key that starts with two B is not found past the start of a line that has no other pair. */
  lemma {:induction false} SkipTail(tail: string, more: string, key: string)
    requires NoPair(tail) && |key| >= 2 && key[0] == 'B' && key[1] == 'B'
    ensures HasKey(tail + more, key) <==> HasKey(more, key)
    ensures key == KEY ==> Scan(tail + more) == Scan(more)
  {
    hide MatchHere;
    var s := tail + more;
    if tail == "" {
      assert s == more;
    } else {
      assert s[1..] == tail[1..] + more;
      assert forall i | 0 <= i < |tail| - 1 :: tail[1..][i] == tail[i + 1];
      SkipTail(tail[1..], more, key);
      assert s[0] == tail[0] && (|tail| > 1 ==> s[1] == tail[1]);
      assert !(key <= s);
    }
  }

  lemma SkipLine(tail: string, more: string, key: string)
    requires NoPair(tail) && tail != "" && tail[0] != 'B'
    requires |key| >= 2 && key[0] == 'B' && key[1] == 'B' && !(key <= "BB" + tail + more)
    ensures HasKey("BB" + tail + more, key) <==> HasKey(more, key)
    ensures key == KEY ==> Scan("BB" + tail + more) == Scan(more)
  {
    hide MatchHere;
    var s := "BB" + tail + more;
    assert s[1..] == "B" + tail + more && s[1..][1..] == tail + more;
    SkipTail(tail, more, key);
  }

  // ---- The printed parts ----

  predicate PlainWord(s: string) {
    s != "" && NoB(s) && forall c :: c in s ==> !Blank(c)
  }

  predicate Printable(r: CaseLog) {
    PlainWord(r.name) && PlainWord(r.reason) && NoB(r.hash)
  }

  lemma NumbersAreNoB(n: nat, v: int)
    ensures NoB(ShowNat(n)) && NoB(ShowInt(v))
  {
    ShowNatDigits(n);
    ShowNatDigits(if v < 0 then -v else v);
  }

  /** Neither key starts a BEGIN or END line, and they have no other pair. */
  lemma BeginSkipped(i: nat, r: CaseLog, more: string, key: string)
    requires Printable(r) && (key == KEY || key == "BBMATRIX_OK")
    ensures HasKey(BeginLine(i, r) + more, key) <==> HasKey(more, key)
    ensures key == KEY ==> Scan(BeginLine(i, r) + more) == Scan(more)
  {
    hide Scan, HasKey, ShowNat;
    NumbersAreNoB(i, 0);
    var rest := "EGIN seq=" + ShowNat(i) + " name=" + r.name + "\n";
    var tail := "CASE_B" + rest;
    assert NoB(rest);
    assert forall k | 0 <= k < |tail| && tail[k] == 'B' :: k == 5;
    assert tail[6] == 'E';
    assert BeginLine(i, r) == "BB" + tail;
    assert ("BB" + tail + more)[2] == 'C';
    SkipLine(tail, more, key);
  }

  function EndRest(i: nat, r: CaseLog): string {
    "CASE_END seq=" + ShowNat(i) + " name=" + r.name + " result=" + (if r.verdict == Supported then "PASS" else "FAIL")
  }

  lemma EndHeadText(i: nat, r: CaseLog)
    ensures EndHead(i, r) == "BB" + EndRest(i, r)
  {
    hide ShowNat;
    assert "BB" + "CASE_END seq=" == "BBCASE_END seq=";
  }

  lemma EndHeadParts(i: nat, r: CaseLog)
    requires Printable(r)
    ensures |EndHead(i, r)| > 3 && EndHead(i, r)[..2] == "BB" && EndHead(i, r)[2] == 'C' && NoB(EndHead(i, r)[2..])
  {
    hide ShowNat, EndHead;
    NumbersAreNoB(i, 0);
    EndHeadText(i, r);
    assert NoB(EndRest(i, r));
    assert EndHead(i, r)[2..] == EndRest(i, r);
  }

  lemma EndPartsNoB(r: CaseLog)
    requires Printable(r)
    ensures NoB(EndVerdict(r)) && NoB(EndCapture(r)) && NoB(EndFlags(r))
  {
    hide ShowNat, ShowInt;
    NumbersAreNoB(r.bytes, r.ec);
    assert NoB(Flag(true)) && NoB(Flag(false)) && NoB(StatusText(r.verdict));
    assert NoB(EndVerdict(r));
    assert NoB(EndCapture(r));
  }

  lemma EndSkipped(i: nat, r: CaseLog, more: string, key: string)
    requires Printable(r) && (key == KEY || key == "BBMATRIX_OK")
    ensures HasKey(EndLine(i, r) + more, key) <==> HasKey(more, key)
    ensures key == KEY ==> Scan(EndLine(i, r) + more) == Scan(more)
  {
    hide Scan, HasKey, EndHead, EndVerdict, EndCapture, EndFlags;
    EndHeadParts(i, r);
    EndPartsNoB(r);
    var tail := EndHead(i, r)[2..] + EndVerdict(r) + EndCapture(r) + EndFlags(r);
    assert EndHead(i, r) == "BB" + EndHead(i, r)[2..];
    assert EndLine(i, r) == "BB" + tail;
    assert NoB(tail);
    assert ("BB" + tail + more)[2] == 'C';
    SkipLine(tail, more, key);
  }

  // ---- The line that matches ----

  function EntryOf(r: CaseLog): Entry {
    Entry(r.name, StatusText(r.verdict), ShowInt(r.ec), r.reason)
  }

  lemma {:induction false} WordThenBlank(w: string, rest: string)
    requires (forall c :: c in w ==> !Blank(c)) && rest != "" && Blank(rest[0])
    ensures Word(w + rest) == w
  {
    if w == "" {
      assert w + rest == rest;
    } else {
      assert w[0] in w;
      assert forall c :: c in w[1..] ==> c in w;
      assert (w + rest)[1..] == w[1..] + rest;
      WordThenBlank(w[1..], rest);
    }
  }

  lemma {:induction false} DigitsThenBlank(ds: string, rest: string)
    requires AllDigits(ds) && rest != "" && !IsDigit(rest[0])
    ensures LeadingDigits(ds + rest) == ds
  {
    if ds == "" {
      assert ds + rest == rest;
    } else {
      assert ds[0] in ds;
      assert forall c :: c in ds[1..] ==> c in ds;
      assert (ds + rest)[1..] == ds[1..] + rest;
      DigitsThenBlank(ds[1..], rest);
    }
  }

  lemma IntThenBlank(v: int, rest: string)
    requires rest != "" && !IsDigit(rest[0])
    ensures IntText(ShowInt(v) + rest) == ShowInt(v) != ""
  {
    IntRoundTrip(v);
    var s := ShowInt(v);
    if v < 0 {
      assert (s + rest)[1..] == s[1..] + rest;
      DigitsThenBlank(s[1..], rest);
      assert s == "-" + s[1..];
    } else {
      DigitsThenBlank(s, rest);
    }
  }

  lemma AfterLiteral(literal: string, rest: string)
    ensures After(literal + rest, literal) == Some(rest)
  {
  }

  lemma StatusIsWord(v: Verdict)
    ensures StatusText(v) != "" && forall c :: c in StatusText(v) ==> !Blank(c)
  {
  }

  /** The pattern reads the applet line back, field by field. */
  lemma AppletLineMatches(r: CaseLog, more: string)
    requires Printable(r)
    ensures MatchHere(AppletLine(r) + more) == Found(EntryOf(r), "\n" + more)
  {
    hide Word, IntText, After, ShowInt, StatusText;
    var r4 := "\n" + more;
    var s4 := r.reason + r4;
    var r3 := " reason=" + s4;
    var s3 := ShowInt(r.ec) + r3;
    var r2 := " ec=" + s3;
    var s2 := StatusText(r.verdict) + r2;
    var r1 := " status=" + s2;
    var s1 := r.name + r1;
    assert AppletLine(r) + more == KEY + s1;
    hide AppletLine, KEY;
    AfterLiteral(KEY, s1);
    WordThenBlank(r.name, r1);
    AfterLiteral(" status=", s2);
    StatusIsWord(r.verdict);
    WordThenBlank(StatusText(r.verdict), r2);
    AfterLiteral(" ec=", s3);
    IntThenBlank(r.ec, r3);
    AfterLiteral(" reason=", s4);
    WordThenBlank(r.reason, r4);
    assert s1[|r.name|..] == r1 && s2[|StatusText(r.verdict)|..] == r2;
    assert s3[|ShowInt(r.ec)|..] == r3 && s4[|r.reason|..] == r4;
  }

  lemma AppletLineScanned(r: CaseLog, more: string)
    requires Printable(r)
    ensures Scan(AppletLine(r) + more) == [EntryOf(r)] + Scan(more)
  {
    hide AppletLine;
    AppletLineMatches(r, more);
    assert ("\n" + more)[1..] == more;
    assert !(KEY <= "\n" + more) by { assert KEY[0] == 'B' && ("\n" + more)[0] == '\n'; }
  }

  lemma AppletRestNoB(r: CaseLog)
    requires Printable(r)
    ensures NoB(r.name + " status=" + StatusText(r.verdict) + " ec=" + ShowInt(r.ec) + " reason=" + r.reason + "\n")
  {
    hide ShowInt;
    NumbersAreNoB(0, r.ec);
    assert NoB(StatusText(r.verdict));
  }

  lemma AppletLineNotOk(r: CaseLog, more: string)
    requires Printable(r)
    ensures HasKey(AppletLine(r) + more, "BBMATRIX_OK") <==> HasKey(more, "BBMATRIX_OK")
  {
    hide Scan, HasKey, ShowInt, StatusText;
    AppletRestNoB(r);
    var rest := r.name + " status=" + StatusText(r.verdict) + " ec=" + ShowInt(r.ec) + " reason=" + r.reason + "\n";
    var tail := "MATRIX applet=" + rest;
    assert AppletLine(r) == "BBMATRIX applet=" + rest;
    assert AppletLine(r) == "BB" + tail;
    assert NoB(tail);
    assert ("BB" + tail + more)[8] == ' ' && "BBMATRIX_OK"[8] == '_';
    SkipLine(tail, more, "BBMATRIX_OK");
  }

  // ---- The whole log ----

  predicate AllPrintable(rs: seq<CaseLog>) {
    forall i :: 0 <= i < |rs| ==> Printable(rs[i])
  }

  function Entries(rs: seq<CaseLog>): seq<Entry> {
    seq(|rs|, i requires 0 <= i < |rs| => EntryOf(rs[i]))
  }

  lemma CaseScanned(i: nat, r: CaseLog, more: string)
    requires Printable(r)
    ensures Scan(CaseText(i, r) + more) == [EntryOf(r)] + Scan(more)
    ensures HasKey(CaseText(i, r) + more, "BBMATRIX_OK") <==> HasKey(more, "BBMATRIX_OK")
  {
    hide BeginLine, EndLine, AppletLine;
    var a, e, b := AppletLine(r), EndLine(i, r), BeginLine(i, r);
    assert CaseText(i, r) + more == b + (e + (a + more));
    BeginSkipped(i, r, e + (a + more), KEY);
    BeginSkipped(i, r, e + (a + more), "BBMATRIX_OK");
    EndSkipped(i, r, a + more, KEY);
    EndSkipped(i, r, a + more, "BBMATRIX_OK");
    AppletLineScanned(r, more);
    AppletLineNotOk(r, more);
  }

  lemma {:induction false} CasesScanned(rs: seq<CaseLog>, more: string)
    requires AllPrintable(rs)
    ensures Scan(CasesText(rs) + more) == Entries(rs) + Scan(more)
    ensures HasKey(CasesText(rs) + more, "BBMATRIX_OK") <==> HasKey(more, "BBMATRIX_OK")
    decreases |rs|
  {
    hide CaseText, EntryOf, Scan, HasKey;
    if rs == [] {
      assert CasesText(rs) + more == more && Entries(rs) + Scan(more) == Scan(more);
    } else {
      var n := |rs| - 1;
      var before, last := rs[..n], rs[n];
      assert CasesText(rs) + more == CasesText(before) + (CaseText(n, last) + more);
      CasesScanned(before, CaseText(n, last) + more);
      CaseScanned(n, last, more);
      assert Entries(rs) == Entries(before) + [EntryOf(last)];
      assert Entries(before) + ([EntryOf(last)] + Scan(more)) == Entries(rs) + Scan(more);
    }
  }

  lemma TotalScanned(total: nat, supported: nat, partial: nat, unavailable: nat, more: string)
    ensures var s := TotalLine(total, supported, partial, unavailable) + more;
            Scan(s) == Scan(more) && (HasKey(s, "BBMATRIX_OK") <==> HasKey(more, "BBMATRIX_OK"))
  {
    hide Scan, HasKey, ShowNat;
    NumbersAreNoB(total, 0);
    NumbersAreNoB(supported, 0);
    NumbersAreNoB(partial, 0);
    NumbersAreNoB(unavailable, 0);
    var rest := ShowNat(total) + " supported=" + ShowNat(supported) + " partial=" + ShowNat(partial) +
                " unavailable=" + ShowNat(unavailable) + "\n";
    assert NoB(rest);
    assert TotalLine(total, supported, partial, unavailable) == "BBMATRIX_TOTAL cases=" + rest;
    assert "BB" + "MATRIX_TOTAL cases=" == "BBMATRIX_TOTAL cases=";
    SkipMatrixLine("MATRIX_TOTAL cases=", rest, more);
  }

  lemma ResultScanned(total: nat, supported: nat, ok: bool, more: string)
    ensures var s := ResultLine(total, supported, ok) + more;
            Scan(s) == Scan(more) && (HasKey(s, "BBMATRIX_OK") <==> HasKey(more, "BBMATRIX_OK"))
  {
    hide Scan, HasKey, ShowNat;
    NumbersAreNoB(total, 0);
    NumbersAreNoB(supported, 0);
    var rest := ResultRest(total, supported, ok);
    ResultText(total, supported, ok);
    assert NoB(rest);
    hide ResultLine, ResultRest;
    SkipMatrixLine("MATRIX_END result=", rest, more);
  }

  function ResultRest(total: nat, supported: nat, ok: bool): string {
    (if ok then "PASS" else "FAIL") + " passed=" + ShowNat(supported) + " total=" + ShowNat(total) + "\n"
  }

  lemma ResultText(total: nat, supported: nat, ok: bool)
    ensures ResultLine(total, supported, ok) == "BB" + "MATRIX_END result=" + ResultRest(total, supported, ok)
  {
    hide ShowNat;
    assert "BB" + "MATRIX_END result=" == "BBMATRIX_END result=";
  }

  lemma EndScanned(total: nat, supported: nat, partial: nat, unavailable: nat, ok: bool)
    ensures var s := EndText(total, supported, partial, unavailable, ok);
            Scan(s) == [] && (HasKey(s, "BBMATRIX_OK") <==> ok)
  {
    hide Scan, HasKey, TotalLine, ResultLine, TagLine;
    var more := ResultLine(total, supported, ok) + TagLine(ok);
    assert EndText(total, supported, partial, unavailable, ok) == TotalLine(total, supported, partial, unavailable) + more;
    TotalScanned(total, supported, partial, unavailable, more);
    ResultScanned(total, supported, ok, TagLine(ok));
    LastLine(ok);
  }

  lemma SkipMatrixLine(head: string, rest: string, more: string)
    requires NoB(head) && NoB(rest) && |head| > 8 && head[0] == 'M' && head[6] == '_' && head[7] != 'O'
    ensures Scan("BB" + head + rest + more) == Scan(more)
    ensures HasKey("BB" + head + rest + more, "BBMATRIX_OK") <==> HasKey(more, "BBMATRIX_OK")
  {
    hide Scan, HasKey;
    var tail := head + rest;
    assert "BB" + head + rest + more == "BB" + tail + more;
    assert ("BB" + tail + more)[8] == head[6] == '_' && KEY[8] == ' ';
    assert ("BB" + tail + more)[9] == head[7] && "BBMATRIX_OK"[9] == 'O';
    SkipLine(tail, more, KEY);
    SkipLine(tail, more, "BBMATRIX_OK");
  }

  lemma LastLine(ok: bool)
    ensures Scan(TagLine(ok)) == [] && (HasKey(TagLine(ok), "BBMATRIX_OK") <==> ok)
  {
    hide MatchHere, Scan, HasKey;
    if ok {
      OkLine();
    } else {
      FailLine();
    }
  }

  lemma FailText(head: string, rest: string)
    requires head == "MATRIX_FAIL " && rest == "capture_or_contract\n"
    ensures "BB" + head + rest + "" == "BBMATRIX_FAIL capture_or_contract\n"
    ensures NoB(head) && NoB(rest) && |head| > 8 && head[0] == 'M' && head[6] == '_' && head[7] != 'O'
  {
  }

  lemma FailLine()
    ensures var s := "BBMATRIX_FAIL capture_or_contract\n"; Scan(s) == [] && !HasKey(s, "BBMATRIX_OK")
  {
    hide Scan, HasKey;
    EmptyScanned();
    var head, rest := "MATRIX_FAIL ", "capture_or_contract\n";
    FailText(head, rest);
    SkipMatrixLine(head, rest, "");
  }

  lemma EmptyScanned()
    ensures Scan("") == [] && forall key :: !HasKey("", key)
  {
  }

  lemma OkLine()
    ensures Scan("BBMATRIX_OK\n") == [] && HasKey("BBMATRIX_OK\n", "BBMATRIX_OK")
  {
    hide MatchHere, Scan;
    var tail := "MATRIX_OK\n";
    assert "BB" + tail + "" == "BBMATRIX_OK\n";
    assert ("BB" + tail + "")[8] == '_' && KEY[8] == ' ';
    SkipLine(tail, "", KEY);
    EmptyScanned();
    assert "BBMATRIX_OK" <= "BBMATRIX_OK\n";
  }

  lemma LogScanned(rs: seq<CaseLog>)
    requires AllPrintable(rs)
    ensures Scan(GuestLog(rs)) == Entries(rs) && (HasKey(GuestLog(rs), "BBMATRIX_OK") <==> AllSupported(rs))
  {
    hide CasesText, EndText, Scan, HasKey;
    var end := EndText(|rs|, Count(rs, Supported), Count(rs, Partial), Count(rs, Unavailable), AllSupported(rs));
    EndScanned(|rs|, Count(rs, Supported), Count(rs, Partial), Count(rs, Unavailable), AllSupported(rs));
    CasesScanned(rs, end);
    var tail := "MATRIX_START\n";
    assert GuestLog(rs) == "BB" + tail + (CasesText(rs) + end);
    SkipMatrixLine(tail, "", CasesText(rs) + end);
    assert "BB" + tail + "" == "BB" + tail;
    assert Entries(rs) + [] == Entries(rs);
  }

  lemma {:induction false} TableOfSupported(es: seq<Entry>)
    requires forall i :: 0 <= i < |es| ==> es[i].status == "supported"
    ensures forall i :: 0 <= i < |es| ==> es[i].applet in Table(es)
    ensures forall a :: a in Table(es) ==> Table(es)[a].0 == "supported" && exists i :: 0 <= i < |es| && es[i].applet == a
  {
    if es != [] {
      var n := |es| - 1;
      TableOfSupported(es[..n]);
      forall a | a in Table(es)
        ensures Table(es)[a].0 == "supported" && exists i :: 0 <= i < |es| && es[i].applet == a
      {
        if a == es[n].applet {
        } else {
          assert a in Table(es[..n]);
          var i :| 0 <= i < |es[..n]| && es[..n][i].applet == a;
          assert es[i].applet == a;
        }
      }
      forall i | 0 <= i < |es|
        ensures es[i].applet in Table(es)
      {
        if i < n {
          assert es[..n][i].applet in Table(es[..n]);
        }
      }
    }
  }

  /**
    The reader accepts exactly the logs of a non-empty table all of whose cases are
    supported, and then reports exactly the tested applets, each as supported.
   */
  lemma AcceptedLogIsSupported(rs: seq<CaseLog>)
    requires AllPrintable(rs)
    ensures ParseLog(GuestLog(rs)).Some? <==> AllSupported(rs) && rs != []
    ensures ParseLog(GuestLog(rs)).Some? ==>
              var t := ParseLog(GuestLog(rs)).value;
              && (forall i :: 0 <= i < |rs| ==> rs[i].name in t)
              && (forall a :: a in t ==> t[a].0 == "supported" && exists i :: 0 <= i < |rs| && rs[i].name == a)
  {
    hide GuestLog, Scan, HasKey, Table, AllPrintable;
    LogScanned(rs);
    if AllSupported(rs) {
      TableOfSupported(Entries(rs));
      assert forall i | 0 <= i < |rs| :: Entries(rs)[i].applet == rs[i].name;
      assert |Entries(rs)| == |rs|;
    }
  }
}
