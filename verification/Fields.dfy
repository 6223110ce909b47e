/** `ir0_auth_field`: one colon-separated field copied into a fixed buffer. */
module Fields {
  import opened Text

  datatype Option<+T> = None | Some(value: T)

  /** What follows the `n`-th colon of a line. */
  function AfterColons(line: string, n: nat): Option<string> {
    if n == 0 then Some(line)
    else if line == "" then None
    else AfterColons(line[1..], if line[0] == ':' then n - 1 else n)
  }

  predicate EndsField(c: char) {
    c == ':' || c == '\n' || c == '\r'
  }

  /** The bytes before the end of the field, at most `room` of them. */
  function FieldText(s: string, room: nat): (t: string)
    ensures |t| <= room && t <= s
    ensures forall c :: c in t ==> !EndsField(c)
    ensures |t| == room || |t| == |s| || EndsField(s[|t|])
  {
    if s == "" || room == 0 || EndsField(s[0]) then "" else [s[0]] + FieldText(s[1..], room - 1)
  }

  lemma FieldTextIs(s: string, room: nat, n: nat)
    requires n <= |s| && n <= room
    requires forall k | 0 <= k < n :: !EndsField(s[k])
    requires n == room || n == |s| || EndsField(s[n])
    ensures FieldText(s, room) == s[..n]
  {
    var t := FieldText(s, room);
    assert t == s[..|t|];
    assert forall k | 0 <= k < |t| :: t[k] in t && t[k] == s[k];
  }

  /** The field a caller with a buffer of `outlen` bytes gets; None stands for -1. */
  function Field(line: string, idx: nat, outlen: nat): Option<string>
    requires outlen > 0
  {
    match AfterColons(line, idx)
    case None => None
    case Some(rest) => Some(FieldText(rest, outlen - 1))
  }

  function Get(o: Option<string>, default: string): string {
    match o case None => default case Some(v) => v
  }

  /** The C string at the start of a buffer. */
  function CString(buffer: seq<char>): string {
    if buffer == [] || buffer[0] == '\0' then "" else [buffer[0]] + CString(buffer[1..])
  }

  lemma {:induction false} CStringIs(buffer: seq<char>, n: nat)
    requires n < |buffer| && buffer[n] == '\0' && '\0' !in buffer[..n]
    ensures CString(buffer) == buffer[..n]
  {
    if n > 0 {
      assert buffer[0] == buffer[..n][0];
      assert forall c :: c in buffer[1..][..n - 1] ==> c in buffer[..n];
      CStringIs(buffer[1..], n - 1);
    }
  }

  lemma AfterColonsStep(line: string, p: nat, n: nat)
    requires p < |line|
    ensures n > 0 ==> AfterColons(line[p..], n) ==
                      AfterColons(line[p + 1..], if line[p] == ':' then n - 1 else n)
  {
    assert line[p..][1..] == line[p + 1..];
  }

  /**
    The walk over the line, into the caller's buffer. A negative index and an
    empty buffer are refused like a missing field.
   */
  method AuthField(line: string, idx: int, out: array<char>) returns (rc: int)
    requires '\0' !in line
    modifies out
    ensures rc == 0 || rc == -1
    ensures out.Length == 0 || idx < 0 ==> rc == -1
    ensures out.Length > 0 && idx >= 0 ==>
              match Field(line, idx, out.Length)
              case None => rc == -1 && CString(out[..]) == ""
              case Some(v) => rc == 0 && CString(out[..]) == v
  {
    if out.Length == 0 {
      return -1;
    }
    out[0] := '\0';
    assert out[..][0] == '\0';
    var p, i := 0, 0;
    while p < |line| && i < idx
      invariant 0 <= p <= |line| && 0 <= i && (idx >= 0 ==> i <= idx)
      invariant idx < 0 ==> i == 0
      invariant idx >= 0 ==> AfterColons(line, idx) == AfterColons(line[p..], idx - i)
      invariant out[0] == '\0'
    {
      AfterColonsStep(line, p, idx - i);
      if line[p] == ':' {
        i := i + 1;
      }
      p := p + 1;
    }
    if i != idx {
      assert out[..][0] == '\0';
      return -1;
    }
    CopyField(line, p, out);
    rc := 0;
  }

  /** The second loop: copy from `start` until a delimiter, the end, or a full buffer. */
  method CopyField(line: string, start: nat, out: array<char>)
    requires '\0' !in line && start <= |line| && out.Length > 0
    modifies out
    ensures CString(out[..]) == FieldText(line[start..], out.Length - 1)
  {
    ghost var rest := line[start..];
    var p, n := start, 0;
    while p < |line| && line[p] != ':' && line[p] != '\n' && line[p] != '\r' && n + 1 < out.Length
      invariant 0 <= n < out.Length && n <= |rest| && p == start + n
      invariant forall k | 0 <= k < n :: out[k] == rest[k] && !EndsField(rest[k])
      decreases |line| - p
    {
      out[n] := line[p];
      n, p := n + 1, p + 1;
    }
    FieldTextIs(rest, out.Length - 1, n);
    out[n] := '\0';
    assert forall k | 0 <= k < n :: rest[k] == line[start + k];
    assert out[..][..n] == rest[..n];
    CStringIs(out[..], n);
  }

  /** A field read into a buffer of `outlen` bytes of its own. */
  method ReadField(line: string, idx: nat, outlen: nat) returns (r: Option<string>)
    requires '\0' !in line && outlen > 0
    ensures r == Field(line, idx, outlen)
  {
    var buffer := new char[outlen];
    var rc := AuthField(line, idx, buffer);
    r := if rc == 0 then Some(CString(buffer[..])) else None;
  }

  lemma {:induction false} AfterColonsSuffix(line: string, n: nat)
    ensures AfterColons(line, n).Some? ==>
              |AfterColons(line, n).value| <= |line| &&
              AfterColons(line, n).value == line[|line| - |AfterColons(line, n).value|..]
  {
    if n > 0 && line != "" {
      AfterColonsSuffix(line[1..], if line[0] == ':' then n - 1 else n);
    }
  }

  /** A field holds only bytes of its line. */
  lemma FieldIsPart(line: string, idx: nat, outlen: nat)
    requires outlen > 0 && Field(line, idx, outlen).Some?
    ensures forall c :: c in Field(line, idx, outlen).value ==> c in line
  {
    AfterColonsSuffix(line, idx);
    var rest := AfterColons(line, idx).value;
    var t := FieldText(rest, outlen - 1);
    assert forall i | 0 <= i < |t| :: t[i] == rest[i] && rest[i] == line[|line| - |rest| + i];
  }

  // ---- Fields of joined lines ----

  /** Text a field can hold. */
  predicate Safe(s: string) {
    forall c :: c in s ==> !EndsField(c)
  }

  function Join(fs: seq<string>): string
    requires fs != []
  {
    if |fs| == 1 then fs[0] else fs[0] + ":" + Join(fs[1..])
  }

  predicate AllSafe(fs: seq<string>) {
    forall f :: f in fs ==> Safe(f)
  }

  lemma {:induction false} AfterFirstColon(f: string, rest: string, n: nat)
    requires Safe(f) && n > 0
    ensures AfterColons(f + ":" + rest, n) == AfterColons(rest, n - 1)
  {
    var line := f + ":" + rest;
    if f == "" {
      assert line[1..] == rest;
    } else {
      assert f[0] in f;
      assert forall c :: c in f[1..] ==> c in f;
      AfterFirstColon(f[1..], rest, n);
      assert line[1..] == f[1..] + ":" + rest;
    }
  }

  lemma {:induction false} NoColonLeft(s: string, n: nat)
    requires ':' !in s && n > 0
    ensures AfterColons(s, n) == None
  {
    if s != "" {
      assert forall c :: c in s[1..] ==> c in s;
      NoColonLeft(s[1..], n);
    }
  }

  lemma {:induction false} FieldTextOf(f: string, rest: string, room: nat)
    requires Safe(f) && (rest == "" || EndsField(rest[0]))
    ensures FieldText(f + rest, room) == f[..if |f| < room then |f| else room]
  {
    if f != "" && room > 0 {
      assert f[0] in f;
      assert forall c :: c in f[1..] ==> c in f;
      assert (f + rest)[1..] == f[1..] + rest;
      FieldTextOf(f[1..], rest, room - 1);
    } else if f == "" {
      assert f + rest == rest;
    }
  }

  /** Reading a field inverts joining, up to the size of the buffer; past the last field is -1. */
  lemma {:induction false} FieldOfJoin(fs: seq<string>, idx: nat, outlen: nat)
    requires fs != [] && AllSafe(fs) && outlen > 0
    ensures Field(Join(fs) + "\n", idx, outlen) ==
            if idx >= |fs| then None
            else Some(fs[idx][..if |fs[idx]| < outlen then |fs[idx]| else outlen - 1])
  {
    var line := Join(fs) + "\n";
    assert fs[0] in fs;
    if |fs| == 1 {
      if idx == 0 {
        FieldTextOf(fs[0], "\n", outlen - 1);
      } else {
        assert ':' !in line;
        NoColonLeft(line, idx);
      }
    } else {
      var rest := Join(fs[1..]) + "\n";
      assert line == fs[0] + ":" + rest;
      if idx == 0 {
        assert line == fs[0] + (":" + rest);
        FieldTextOf(fs[0], ":" + rest, outlen - 1);
      } else {
        AfterFirstColon(fs[0], rest, idx);
        assert forall f :: f in fs[1..] ==> f in fs;
        FieldOfJoin(fs[1..], idx - 1, outlen);
      }
    }
  }

  lemma ReadWhole(fs: seq<string>, i: nat, outlen: nat)
    requires i < |fs| && AllSafe(fs) && |fs[i]| < outlen
    ensures Field(Join(fs) + "\n", i, outlen) == Some(fs[i])
  {
    FieldOfJoin(fs, i, outlen);
    assert fs[i][..|fs[i]|] == fs[i];
  }

  lemma ReadMaybe(fs: seq<string>, i: nat, outlen: nat)
    requires fs != [] && AllSafe(fs) && outlen > 0 && (i < |fs| ==> |fs[i]| < outlen)
    ensures Field(Join(fs) + "\n", i, outlen) == if i < |fs| then Some(fs[i]) else None
  {
    if i < |fs| {
      ReadWhole(fs, i, outlen);
    } else {
      FieldOfJoin(fs, i, outlen);
    }
  }

  /** A joined line is one line of the file when it fits the buffer. */
  lemma {:induction false} JoinHasNoNewline(fs: seq<string>)
    requires fs != [] && AllSafe(fs)
    ensures '\n' !in Join(fs) && '\r' !in Join(fs)
  {
    assert fs[0] in fs;
    if |fs| > 1 {
      assert forall f :: f in fs[1..] ==> f in fs;
      JoinHasNoNewline(fs[1..]);
    }
  }

  lemma JoinIsLine(fs: seq<string>)
    requires fs != [] && AllSafe(fs) && |Join(fs)| < LINE_ROOM
    ensures IsLine(Join(fs) + "\n")
  {
    JoinHasNoNewline(fs);
    var l := Join(fs) + "\n";
    assert l[..|l| - 1] == Join(fs);
  }

  // ---- key=value lines ----

  /** Place of the first '='; the length when there is none. */
  function EqualsAt(s: string): (n: nat)
    ensures n <= |s| && '=' !in s[..n] && (n == |s| || s[n] == '=')
  {
    if s == "" || s[0] == '=' then 0 else 1 + EqualsAt(s[1..])
  }

  lemma {:induction false} EqualsAtIs(key: string, rest: string)
    requires '=' !in key && rest != "" && rest[0] == '='
    ensures EqualsAt(key + rest) == |key|
  {
    if key == "" {
      assert key + rest == rest;
    } else {
      assert key[0] in key && forall c :: c in key[1..] ==> c in key;
      assert (key + rest)[1..] == key[1..] + rest;
      EqualsAtIs(key[1..], rest);
    }
  }
}
