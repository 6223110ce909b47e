/** The parts of Python's str that the scripts use, on text without case pairs outside ASCII. */
module PyText {
  /** The boundaries of `str.splitlines`; the empty line that "\r\n" gives here is one that the readers skip. */
  predicate LineBreak(c: char) {
    var i := c as int;
    10 <= i <= 13 || 28 <= i <= 30 || i == 0x85 || i == 0x2028 || i == 0x2029
  }

  /** What `str.strip` removes. */
  predicate Space(c: char) {
    var i := c as int;
    || 9 <= i <= 13 || 28 <= i <= 32 || i == 0x85 || i == 0xA0 || i == 0x1680 || 0x2000 <= i <= 0x200A
    || i == 0x2028 || i == 0x2029 || i == 0x202F || i == 0x205F || i == 0x3000
  }

  function StripLeft(s: string): string {
    if s != "" && Space(s[0]) then StripLeft(s[1..]) else s
  }

  function StripRight(s: string): string {
    if s != "" && Space(s[|s| - 1]) then StripRight(s[..|s| - 1]) else s
  }

  function Strip(s: string): string {
    StripRight(StripLeft(s))
  }

  predicate Trimmed(s: string) {
    s == "" || (!Space(s[0]) && !Space(s[|s| - 1]))
  }

  predicate SingleLine(s: string) {
    forall c :: c in s ==> !LineBreak(c)
  }

  function LowerChar(c: char): char {
    if 'A' <= c <= 'Z' then c + 32 as char else c
  }

  function Lower(s: string): string {
    if s == "" then "" else [LowerChar(s[0])] + Lower(s[1..])
  }

  lemma {:induction false} LowerIs(s: string)
    ensures |Lower(s)| == |s| && forall i :: 0 <= i < |s| ==> Lower(s)[i] == LowerChar(s[i])
  {
    if s != "" {
      LowerIs(s[1..]);
    }
  }

  /** Length of the first line. */
  function LineLen(s: string): (n: nat)
    ensures n <= |s| && SingleLine(s[..n]) && (n == |s| || LineBreak(s[n]))
  {
    if s == "" || LineBreak(s[0]) then 0 else 1 + LineLen(s[1..])
  }

  function Lines(ls: seq<string>): string {
    if ls == [] then "" else ls[0] + "\n" + Lines(ls[1..])
  }

  predicate Plain(val: string) {
    Trimmed(val) && SingleLine(val)
  }

  /** A line that the readers skip: blank, or a comment. */
  predicate Skipped(line: string) {
    SingleLine(line) && Trimmed(line) && (line == "" || line[0] == '#')
  }

  predicate AllSkipped(ls: seq<string>) {
    ls == [] || (Skipped(ls[0]) && AllSkipped(ls[1..]))
  }

  lemma CommentSkipped(a: string, b: string, c: string, d: string)
    requires SingleLine(a) && SingleLine(b) && SingleLine(c) && SingleLine(d)
    requires a != "" && a[0] == '#' && d != "" && !Space(d[|d| - 1])
    ensures Skipped(a + b + c + d)
  {
    hide LineBreak;
  }

  lemma StripNothing(s: string)
    requires Trimmed(s)
    ensures Strip(s) == s
  {
  }

  predicate AllSpace(s: string) {
    forall c :: c in s ==> Space(c)
  }

  lemma {:induction false} StripLeftIs(blanks: string, rest: string)
    requires AllSpace(blanks) && (rest == "" || !Space(rest[0]))
    ensures StripLeft(blanks + rest) == rest
  {
    hide Space;
    if blanks == "" {
      assert blanks + rest == rest;
    } else {
      assert blanks[0] in blanks && forall c :: c in blanks[1..] ==> c in blanks;
      assert (blanks + rest)[1..] == blanks[1..] + rest;
      StripLeftIs(blanks[1..], rest);
    }
  }

  lemma {:induction false} StripRightIs(rest: string, blanks: string)
    requires AllSpace(blanks) && (rest == "" || !Space(rest[|rest| - 1]))
    ensures StripRight(rest + blanks) == rest
  {
    hide Space;
    if blanks == "" {
      assert rest + blanks == rest;
    } else {
      var n := |blanks| - 1;
      assert blanks[n] in blanks && forall c :: c in blanks[..n] ==> c in blanks;
      assert (rest + blanks)[..|rest| + n] == rest + blanks[..n];
      StripRightIs(rest, blanks[..n]);
    }
  }

  /** Stripping takes off the blanks at both ends. */
  lemma StripIs(before: string, core: string, after: string)
    requires AllSpace(before) && AllSpace(after) && Trimmed(core)
    ensures Strip(before + core + after) == core
  {
    hide Space;
    assert before + core + after == before + (core + after);
    if core == "" {
      assert before + (core + after) == (before + after) + "";
      assert AllSpace(before + after);
      StripLeftIs(before + after, "");
    } else {
      assert (core + after)[0] == core[0];
      StripLeftIs(before, core + after);
      StripRightIs(core, after);
    }
  }

  lemma {:induction false} LineLenIs(line: string, rest: string)
    requires SingleLine(line) && (rest == "" || LineBreak(rest[0]))
    ensures LineLen(line + rest) == |line|
  {
    if line == "" {
      assert line + rest == rest;
    } else {
      assert line[0] in line;
      assert forall c :: c in line[1..] ==> c in line;
      assert (line + rest)[1..] == line[1..] + rest;
      LineLenIs(line[1..], rest);
    }
  }

  lemma {:induction false} StripLeftPlain(s: string)
    ensures var t := StripLeft(s); t == "" || !Space(t[0])
    ensures SingleLine(s) ==> SingleLine(StripLeft(s))
  {
    if s != "" && Space(s[0]) {
      StripLeftPlain(s[1..]);
    }
  }

  lemma {:induction false} StripRightPlain(s: string)
    requires s == "" || !Space(s[0])
    ensures Trimmed(StripRight(s))
    ensures SingleLine(s) ==> SingleLine(StripRight(s))
  {
    if s != "" && Space(s[|s| - 1]) {
      StripRightPlain(s[..|s| - 1]);
    }
  }

  lemma StripPlain(s: string)
    requires SingleLine(s)
    ensures Plain(Strip(s))
  {
    StripLeftPlain(s);
    StripRightPlain(StripLeft(s));
  }
}
