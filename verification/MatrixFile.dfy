/** busybox_applet_matrix.py: building the applet matrix, writing it, and reading it back. */
module MatrixFile {
  import opened Fields
  import opened PyText
  import opened MatrixLog
  import MatrixParse

  type Verdict = (string, string)
  datatype Row = Row(applet: string, status: string, evidence: string)

  // ---- build_matrix ----

  /** Where an applet's status comes from: the guest log, else other gates, else the host probe. */
  function VerdictOf(applet: string, fromLog: map<string, Verdict>, fromEvidence: map<string, Verdict>,
                     host: string -> Verdict): Verdict {
    if applet in fromLog then fromLog[applet]
    else if applet in fromEvidence then fromEvidence[applet]
    else host(applet)
  }

  function Built(applets: seq<string>, fromLog: map<string, Verdict>, fromEvidence: map<string, Verdict>,
                 host: string -> Verdict): seq<Row> {
    seq(|applets|, i requires 0 <= i < |applets| =>
      var v := VerdictOf(applets[i], fromLog, fromEvidence, host); Row(applets[i], v.0, v.1))
  }

  method BuildMatrix(applets: seq<string>, fromLog: map<string, Verdict>, fromEvidence: map<string, Verdict>,
                     host: string -> Verdict) returns (rows: seq<Row>)
    ensures rows == Built(applets, fromLog, fromEvidence, host)
  {
    rows := [];
    for i := 0 to |applets|
      invariant rows == Built(applets, fromLog, fromEvidence, host)[..i]
    {
      var v;
      if applets[i] in fromLog {
        v := fromLog[applets[i]];
      } else if applets[i] in fromEvidence {
        v := fromEvidence[applets[i]];
      } else {
        v := host(applets[i]);
      }
      rows := rows + [Row(applets[i], v.0, v.1)];
    }
  }

  // ---- write_matrix ----

  /** `ljust` */
  function Padded(s: string, width: nat): string
    decreases width - |s|
  {
    if |s| >= width then s else Padded(s + " ", width)
  }

  function RowLine(r: Row, width: nat): string {
    Padded(r.applet, width) + "\t" + r.status + "\t" + r.evidence
  }

  function RowLines(rows: seq<Row>, width: nat): seq<string> {
    if rows == [] then [] else [RowLine(rows[0], width)] + RowLines(rows[1..], width)
  }

  function Longest(rows: seq<Row>): nat {
    if rows == [] then 0
    else var rest := Longest(rows[1..]); if |rows[0].applet| > rest then |rows[0].applet| else rest
  }

  // The comments are put together from short parts, which the proofs look through one by one.
  const TITLE := "# IR0 BusyBox applet " + "status \U{2014} " + "generated by make " + "busybox-matrix."
  const EDIT_NOTE := "# Do not edit by hand: " + "status must come " + "from a run, not " + "from a build."
  const COLUMNS := "# " + "applet\t" + "status\t" + "evidence"
  const HEADER: seq<string> := [TITLE, EDIT_NOTE, COLUMNS]

  /** The text of the file; no text without rows, where `max` has nothing to take. */
  function Written(rows: seq<Row>): Option<string> {
    if rows == [] then None else Some(Lines(HEADER + RowLines(rows, Longest(rows) + 1)))
  }

  method WriteMatrix(rows: seq<Row>) returns (text: Option<string>)
    ensures text == Written(rows)
  {
    hide HEADER, RowLine;
    if rows == [] {
      return None;
    }
    var width := 0;
    var i := |rows|;
    while i > 0
      invariant 0 <= i <= |rows| && width == Longest(rows[i..])
    {
      i := i - 1;
      assert rows[i..][1..] == rows[i + 1..];
      if |rows[i].applet| > width {
        width := |rows[i].applet|;
      }
    }
    assert rows[0..] == rows;
    width := width + 1;
    var lines := HEADER;
    while i < |rows|
      invariant 0 <= i <= |rows|
      invariant lines + RowLines(rows[i..], width) == HEADER + RowLines(rows, width)
    {
      assert rows[i..][1..] == rows[i + 1..];
      lines := lines + [RowLine(rows[i], width)];
      i := i + 1;
    }
    assert lines == lines + RowLines(rows[i..], width);
    text := Some(Lines(lines));
  }

  // ---- read_matrix ----

  function TabAt(s: string): (n: nat)
    ensures n <= |s| && '\t' !in s[..n] && (n == |s| || s[n] == '\t')
  {
    if s == "" || s[0] == '\t' then 0 else 1 + TabAt(s[1..])
  }

  /** The parts between tabs that are not blank. */
  function Parts(s: string): seq<string>
    decreases |s|
  {
    var n := TabAt(s);
    var first := if Strip(s[..n]) == "" then [] else [s[..n]];
    if n == |s| then first else first + Parts(s[n + 1..])
  }

  function ReadLine(raw: string, table: map<string, Verdict>): map<string, Verdict> {
    var line := Strip(raw);
    var parts := Parts(line);
    if line == "" || line[0] == '#' || |parts| < 2 then table
    else table[Strip(parts[0]) := (Strip(parts[1]), if |parts| > 2 then Strip(parts[2]) else "-")]
  }

  function ReadFrom(text: string, table: map<string, Verdict>): map<string, Verdict>
    decreases |text|
  {
    if text == "" then table
    else
      var n := LineLen(text);
      var now := ReadLine(text[..n], table);
      if n == |text| then now else ReadFrom(text[n + 1..], now)
  }

  method ReadMatrix(file: string) returns (table: map<string, Verdict>)
    ensures table == ReadFrom(file, map[])
  {
    hide ReadLine;
    table := map[];
    var text := file;
    while text != ""
      invariant ReadFrom(text, table) == ReadFrom(file, map[])
      decreases |text|
    {
      var n := LineLen(text);
      table := ReadLine(text[..n], table);
      text := if n == |text| then "" else text[n + 1..];
    }
  }

  // ---- The round trip ----

  /** A value that one column of the file can hold. */
  predicate Cell(s: string) {
    s != "" && Plain(s) && '\t' !in s
  }

  predicate RowOk(r: Row) {
    Cell(r.applet) && r.applet[0] != '#' && Cell(r.status) && Cell(r.evidence)
  }

  predicate AllRowsOk(rows: seq<Row>) {
    rows == [] || (RowOk(rows[0]) && AllRowsOk(rows[1..]))
  }

  /** The rows as a dictionary. */
  function TableOf(rows: seq<Row>, table: map<string, Verdict>): map<string, Verdict> {
    if rows == [] then table
    else TableOf(rows[1..], table[rows[0].applet := (rows[0].status, rows[0].evidence)])
  }

  lemma {:induction false} PaddedStrips(s: string, pad: string, width: nat)
    requires s != "" && Plain(s) && forall c :: c in pad ==> c == ' '
    ensures var p := Padded(s + pad, width);
            && s <= p && Strip(p) == s && SingleLine(p) && ('\t' !in s ==> '\t' !in p)
    decreases width - |s + pad|
  {
    if |s + pad| >= width {
      StripPad(s, pad);
      assert s[0] in s;
    } else {
      assert s + pad + " " == s + (pad + " ");
      PaddedStrips(s, pad + " ", width);
    }
  }

  lemma StripPad(s: string, pad: string)
    requires s != "" && Trimmed(s) && forall c :: c in pad ==> c == ' '
    ensures Strip(s + pad) == s
    decreases |pad|
  {
    if pad == "" {
      assert s + pad == s;
      StripNothing(s);
    } else {
      var less := pad[..|pad| - 1];
      assert pad[|pad| - 1] in pad && forall c :: c in less ==> c in pad;
      assert pad == less + " ";
      assert s + pad == (s + less) + " ";
      StripPad(s, less);
      assert (s + pad)[0] == s[0] && (s + less)[0] == s[0];
      assert StripLeft(s + pad) == s + pad && StripLeft(s + less) == s + less;
      assert (s + pad)[..|s + pad| - 1] == s + less;
    }
  }

  lemma {:induction false} TabAtIs(part: string, rest: string)
    requires '\t' !in part && (rest == "" || rest[0] == '\t')
    ensures TabAt(part + rest) == |part|
  {
    if part == "" {
      assert part + rest == rest;
    } else {
      assert part[0] in part && forall c :: c in part[1..] ==> c in part;
      assert (part + rest)[1..] == part[1..] + rest;
      TabAtIs(part[1..], rest);
    }
  }

  /** A part before a tab, or the last part. */
  lemma PartsFirst(part: string, rest: string)
    requires '\t' !in part && Strip(part) != ""
    ensures Parts(part + "\t" + rest) == [part] + Parts(rest) && Parts(part) == [part]
  {
    hide Strip;
    assert part + "\t" + rest == part + ("\t" + rest);
    TabAtIs(part, "\t" + rest);
    TabAtIs(part, "");
    assert part + "" == part && part[..|part|] == part;
    assert (part + ("\t" + rest))[..|part|] == part && (part + ("\t" + rest))[|part| + 1..] == rest;
  }

  lemma NameStrips(r: Row, width: nat)
    requires RowOk(r)
    ensures var name := Padded(r.applet, width);
            Strip(name) == r.applet && r.applet <= name && SingleLine(name) && '\t' !in name
  {
    assert r.applet + "" == r.applet;
    PaddedStrips(r.applet, "", width);
  }

  lemma RowLinePlain(r: Row, width: nat)
    requires RowOk(r)
    ensures var l := RowLine(r, width); Plain(l) && l != "" && l[0] == r.applet[0]
  {
    NameStrips(r, width);
    var name := Padded(r.applet, width);
    RowSingleLine(name, r.status, r.evidence);
    hide Strip, Padded, SingleLine, Space;
    var l := RowLine(r, width);
    assert l[|l| - 1] == r.evidence[|r.evidence| - 1];
    assert l[0] == name[0] == r.applet[0];
  }

  lemma RowLineParts(r: Row, width: nat)
    requires RowOk(r)
    ensures Parts(RowLine(r, width)) == [Padded(r.applet, width), r.status, r.evidence]
  {
    NameStrips(r, width);
    StripNothing(r.status);
    StripNothing(r.evidence);
    var name := Padded(r.applet, width);
    assert RowLine(r, width) == name + "\t" + (r.status + "\t" + r.evidence);
    hide Strip, Padded, Plain, RowLine, Parts;
    PartsFirst(name, r.status + "\t" + r.evidence);
    PartsFirst(r.status, r.evidence);
    PartsFirst(r.evidence, "");
  }

  lemma RowSingleLine(a: string, b: string, c: string)
    requires SingleLine(a) && SingleLine(b) && SingleLine(c)
    ensures SingleLine(a + "\t" + b + "\t" + c)
  {
    assert !LineBreak('\t');
    hide LineBreak;
  }

  lemma ReadRow(r: Row, width: nat, table: map<string, Verdict>)
    requires RowOk(r)
    ensures ReadLine(RowLine(r, width), table) == table[r.applet := (r.status, r.evidence)]
  {
    NameStrips(r, width);
    RowLinePlain(r, width);
    RowLineParts(r, width);
    StripNothing(RowLine(r, width));
    StripNothing(r.status);
    StripNothing(r.evidence);
    hide Strip, Parts, RowLine, Padded;
  }

  /** A line with two columns has no evidence, and one with one column, or a comment, says nothing. */
  lemma ReadShortRow(applet: string, status: string, note: string, table: map<string, Verdict>)
    requires Cell(applet) && applet[0] != '#' && Cell(status) && Trimmed("#" + note)
    ensures ReadLine(applet + "\t" + status, table) == table[applet := (status, "-")]
    ensures ReadLine(applet, table) == table && ReadLine("#" + note, table) == table
  {
    StripNothing(applet);
    StripNothing(status);
    StripNothing("#" + note);
    var line := applet + "\t" + status;
    assert line[0] == applet[0] && line[|line| - 1] == status[|status| - 1];
    StripNothing(line);
    hide Strip, Parts;
    PartsFirst(applet, status);
    PartsFirst(status, "");
  }

  lemma ReadOneLine(line: string, rest: string, table: map<string, Verdict>)
    requires SingleLine(line)
    ensures ReadFrom(line + "\n" + rest, table) == ReadFrom(rest, ReadLine(line, table))
  {
    hide ReadLine;
    var text := line + "\n" + rest;
    assert text == line + ("\n" + rest);
    LineLenIs(line, "\n" + rest);
    assert text[..|line|] == line && text[|line| + 1..] == rest;
  }

  lemma {:induction false} ReadRows(rows: seq<Row>, width: nat, table: map<string, Verdict>)
    requires AllRowsOk(rows)
    ensures ReadFrom(Lines(RowLines(rows, width)), table) == TableOf(rows, table)
  {
    hide ReadLine, RowLine, RowOk, LineBreak, ReadFrom;
    if rows == [] {
      NothingToRead(table);
    } else {
      RowLinePlain(rows[0], width);
      ReadOneLine(RowLine(rows[0], width), Lines(RowLines(rows[1..], width)), table);
      ReadRow(rows[0], width, table);
      ReadRows(rows[1..], width, table[rows[0].applet := (rows[0].status, rows[0].evidence)]);
      assert RowLines(rows, width)[1..] == RowLines(rows[1..], width);
    }
  }

  lemma NothingToRead(table: map<string, Verdict>)
    ensures ReadFrom("", table) == table
  {
  }

  lemma {:induction false} ReadSkipped(ls: seq<string>, more: seq<string>, table: map<string, Verdict>)
    requires AllSkipped(ls)
    ensures ReadFrom(Lines(ls + more), table) == ReadFrom(Lines(more), table)
  {
    hide LineBreak, Space, ReadFrom, Parts;
    if ls == [] {
      assert ls + more == more;
    } else {
      assert (ls + more)[1..] == ls[1..] + more;
      ReadOneLine(ls[0], Lines(ls[1..] + more), table);
      StripNothing(ls[0]);
      ReadSkipped(ls[1..], more, table);
    }
  }

  lemma HeaderSkipped()
    ensures AllSkipped(HEADER)
  {
    TitleSkipped();
    EditNoteSkipped();
    ColumnsSkipped();
    hide TITLE, EDIT_NOTE, COLUMNS, Skipped;
    assert AllSkipped([COLUMNS]);
    assert [EDIT_NOTE, COLUMNS][1..] == [COLUMNS];
    assert AllSkipped([EDIT_NOTE, COLUMNS]);
    assert HEADER[1..] == [EDIT_NOTE, COLUMNS];
  }

  lemma TitleSkipped()
    ensures Skipped(TITLE)
  {
    CommentSkipped("# IR0 BusyBox applet ", "status \U{2014} ", "generated by make ", "busybox-matrix.");
  }

  lemma EditNoteSkipped()
    ensures Skipped(EDIT_NOTE)
  {
    CommentSkipped("# Do not edit by hand: ", "status must come ", "from a run, not ", "from a build.");
  }

  lemma ColumnsSkipped()
    ensures Skipped(COLUMNS)
  {
    CommentSkipped("# ", "applet\t", "status\t", "evidence");
  }

  /** Writing a matrix and reading it gives the rows back, whatever the widths of the names. */
  lemma WriteThenRead(rows: seq<Row>)
    requires rows != [] && AllRowsOk(rows)
    ensures Written(rows).Some? && ReadFrom(Written(rows).value, map[]) == TableOf(rows, map[])
  {
    hide HEADER, ReadFrom;
    HeaderSkipped();
    ReadSkipped(HEADER, RowLines(rows, Longest(rows) + 1), map[]);
    ReadRows(rows, Longest(rows) + 1, map[]);
  }

  // ---- check_profiles ----

  /**
    One profile: no failure is reported exactly when it has applets, all are in the matrix and, for the strict ones,
    desktop and appliance, supported.
   */
  method CheckProfile(strict: bool, applets: seq<string>, matrix: map<string, Verdict>) returns (failures: nat)
    ensures failures == 0 <==>
            applets != [] && forall a :: a in applets ==> a in matrix && (strict ==> matrix[a].0 == "supported")
  {
    if applets == [] {
      return 1;
    }
    var missing, weak := 0, 0;
    for i := 0 to |applets|
      invariant missing >= 0 && weak >= 0
      invariant missing == 0 <==> forall j :: 0 <= j < i ==> applets[j] in matrix
      invariant weak == 0 <==> forall j :: 0 <= j < i && applets[j] in matrix ==> matrix[applets[j]].0 == "supported"
    {
      if applets[i] !in matrix {
        missing := missing + 1;
      } else if matrix[applets[i]].0 != "supported" {
        weak := weak + 1;
      }
    }
    failures := (if missing > 0 then 1 else 0) + (if strict && weak > 0 then 1 else 0);
  }

  // ---- From the guest log to the profile check ----

  /** Every row says what f says of its applet. */
  predicate Follows(rows: seq<Row>, f: string -> Verdict) {
    rows == [] || ((rows[0].status, rows[0].evidence) == f(rows[0].applet) && Follows(rows[1..], f))
  }

  lemma {:induction false} TableFollows(rows: seq<Row>, table: map<string, Verdict>, f: string -> Verdict)
    requires Follows(rows, f) && forall a :: a in table ==> table[a] == f(a)
    ensures forall a :: a in TableOf(rows, table) ==> TableOf(rows, table)[a] == f(a)
    ensures forall a :: a in TableOf(rows, table) <==> a in table || exists i :: 0 <= i < |rows| && rows[i].applet == a
  {
    if rows != [] {
      var next := table[rows[0].applet := (rows[0].status, rows[0].evidence)];
      TableFollows(rows[1..], next, f);
      forall a ensures a in TableOf(rows, table) <==> a in table || exists i :: 0 <= i < |rows| && rows[i].applet == a {
        if i :| 0 <= i < |rows| && rows[i].applet == a {
          assert i > 0 ==> rows[1..][i - 1].applet == a;
        }
        if i :| 0 <= i < |rows[1..]| && rows[1..][i].applet == a {
          assert rows[i + 1].applet == a;
        }
      }
    }
  }

  lemma {:induction false} BuiltFollows(rows: seq<Row>, f: string -> Verdict)
    requires forall i :: 0 <= i < |rows| ==> (rows[i].status, rows[i].evidence) == f(rows[i].applet)
    ensures Follows(rows, f)
  {
    if rows != [] {
      BuiltFollows(rows[1..], f);
    }
  }

  /** What is read back from a written matrix: each applet of the binary, with the verdict of its best source. */
  lemma BuiltReadBack(applets: seq<string>, fromLog: map<string, Verdict>, fromEvidence: map<string, Verdict>,
                      host: string -> Verdict)
    requires applets != [] && AllRowsOk(Built(applets, fromLog, fromEvidence, host))
    ensures var text := Written(Built(applets, fromLog, fromEvidence, host));
            text.Some? && var table := ReadFrom(text.value, map[]);
            && (forall a :: a in table <==> a in applets)
            && forall a :: a in applets ==>
                 table[a] == if a in fromLog then fromLog[a] else if a in fromEvidence then fromEvidence[a] else host(a)
  {
    var rows := Built(applets, fromLog, fromEvidence, host);
    var f := (a: string) => VerdictOf(a, fromLog, fromEvidence, host);
    BuiltFollows(rows, f);
    assert forall i :: 0 <= i < |applets| ==> rows[i].applet == applets[i];
    hide Follows, Written, AllRowsOk, ReadFrom, TableOf, VerdictOf, Built;
    WriteThenRead(rows);
    TableFollows(rows, map[], f);
    TableIs(TableOf(rows, map[]), rows, applets, f);
  }

  lemma TableIs(table: map<string, Verdict>, rows: seq<Row>, applets: seq<string>, f: string -> Verdict)
    requires |rows| == |applets| && forall i :: 0 <= i < |applets| ==> rows[i].applet == applets[i]
    requires forall a :: a in table <==> exists i :: 0 <= i < |rows| && rows[i].applet == a
    requires forall a :: a in table ==> table[a] == f(a)
    ensures table == map a | a in applets :: f(a)
  {
    forall a ensures a in table <==> a in applets {
      if i :| 0 <= i < |applets| && applets[i] == a {
        assert rows[i].applet == a;
      }
    }
  }

  /**
    From the guest to the gate: after a matrix is built from an accepted guest log, written and read, a
    strict profile of applets that were tested and are in the binary passes.
   */
  lemma TestedProfilePasses(rs: seq<CaseLog>, applets: seq<string>, fromEvidence: map<string, Verdict>,
                            host: string -> Verdict, profile: seq<string>)
    requires MatrixParse.AllPrintable(rs) && MatrixParse.ParseLog(GuestLog(rs)).Some?
    requires AllRowsOk(Built(applets, MatrixParse.ParseLog(GuestLog(rs)).value, fromEvidence, host))
    requires profile != []
    requires forall a :: a in profile ==> a in applets && exists i :: 0 <= i < |rs| && rs[i].name == a
    ensures var text := Written(Built(applets, MatrixParse.ParseLog(GuestLog(rs)).value, fromEvidence, host));
            text.Some? &&
            forall a :: a in profile ==>
              a in ReadFrom(text.value, map[]) && ReadFrom(text.value, map[])[a].0 == "supported"
  {
    hide MatrixParse.AllPrintable, MatrixParse.ParseLog, GuestLog, Built, AllRowsOk, Written, ReadFrom;
    MatrixParse.AcceptedLogIsSupported(rs);
    assert profile[0] in applets;
    BuiltReadBack(applets, MatrixParse.ParseLog(GuestLog(rs)).value, fromEvidence, host);
  }
}
