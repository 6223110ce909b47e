/**
  Text as the C library reads and prints it: `fgets` into `char line[512]`, and
  the decimal numbers of `%u` and `strtoul`. A file is a sequence of characters
  without NUL.
 */
module Text {

  /** `char line[512]` takes 511 bytes and a NUL. */
  const LINE_ROOM: nat := 511

  /** How many bytes `fgets` takes from the unread rest of a file. */
  function ChunkLen(s: string, room: nat): (n: nat)
    requires s != "" && room > 0
    ensures 1 <= n <= |s| && n <= room
    ensures '\n' !in s[..n - 1]
    ensures s[n - 1] == '\n' || n == |s| || n == room
  {
    if s[0] == '\n' || |s| == 1 || room == 1 then 1 else 1 + ChunkLen(s[1..], room - 1)
  }

  function FirstChunk(s: string): string
    requires s != ""
  {
    s[..ChunkLen(s, LINE_ROOM)]
  }

  function AfterChunk(s: string): (r: string)
    requires s != ""
    ensures |r| < |s|
  {
    s[ChunkLen(s, LINE_ROOM)..]
  }

  /** The successive values of `line` in `while (fgets(line, 512, f))`. */
  function Chunks(s: string): seq<string>
    decreases |s|
  {
    if s == "" then [] else [FirstChunk(s)] + Chunks(AfterChunk(s))
  }

  function Flatten(ls: seq<string>): string {
    if ls == [] then "" else ls[0] + Flatten(ls[1..])
  }

  /** A whole line: its only newline is its last byte, and it fits the buffer. */
  predicate IsLine(l: string) {
    1 <= |l| <= LINE_ROOM && l[|l| - 1] == '\n' && '\n' !in l[..|l| - 1]
  }

  predicate AllLines(ls: seq<string>) {
    ls == [] || (IsLine(ls[0]) && AllLines(ls[1..]))
  }

  /** Every read of the file returns a whole line. */
  predicate WellFormed(s: string) {
    AllLines(Chunks(s))
  }

  lemma {:induction false} FlattenConcat(a: seq<string>, b: seq<string>)
    ensures Flatten(a + b) == Flatten(a) + Flatten(b)
  {
    if a == [] {
      assert a + b == b;
    } else {
      FlattenConcat(a[1..], b);
      assert (a + b)[1..] == a[1..] + b;
    }
  }

  lemma FlattenOne(l: string)
    ensures Flatten([l]) == l
  {
    assert [l][1..] == [];
  }

  lemma FlattenTwo(l: string, m: string)
    ensures Flatten([l, m]) == l + m
  {
    assert [l, m][1..] == [m];
    FlattenOne(m);
  }

  lemma {:induction false} AllLinesConcat(a: seq<string>, b: seq<string>)
    ensures AllLines(a + b) <==> AllLines(a) && AllLines(b)
  {
    if a == [] {
      assert a + b == b;
    } else {
      AllLinesConcat(a[1..], b);
      assert (a + b)[1..] == a[1..] + b;
    }
  }

  lemma {:induction false} LineAt(ls: seq<string>, i: nat)
    requires AllLines(ls) && i < |ls|
    ensures IsLine(ls[i])
  {
    if i > 0 {
      LineAt(ls[1..], i - 1);
    }
  }

  /** Copying a file chunk by chunk copies the file. */
  lemma {:induction false} FlattenChunks(s: string)
    ensures Flatten(Chunks(s)) == s
    decreases |s|
  {
    if s != "" {
      FlattenChunks(AfterChunk(s));
      assert Chunks(s)[1..] == Chunks(AfterChunk(s));
    }
  }

  /** `fgets` returns a line that starts the rest of the file, and only that line. */
  lemma ChunkIsLine(l: string, rest: string)
    requires IsLine(l)
    ensures FirstChunk(l + rest) == l && AfterChunk(l + rest) == rest
  {
    var s := l + rest;
    var n := ChunkLen(s, LINE_ROOM);
    assert s[|l| - 1] == '\n';
    assert forall i | 0 <= i < |l| - 1 :: s[i] == l[..|l| - 1][i];
    assert forall i | 0 <= i < n - 1 :: s[i] == s[..n - 1][i];
  }

  /** Reading back a file made of whole lines gives those lines. */
  lemma {:induction false} ChunksOfLines(ls: seq<string>)
    requires AllLines(ls)
    ensures Chunks(Flatten(ls)) == ls
  {
    if ls != [] {
      ChunkIsLine(ls[0], Flatten(ls[1..]));
      ChunksOfLines(ls[1..]);
    }
  }

  lemma ChunksCons(l: string, rest: string)
    requires IsLine(l)
    ensures Chunks(l + rest) == [l] + Chunks(rest)
  {
    ChunkIsLine(l, rest);
  }

  /** Whole lines at the head of a file are read one by one, whatever follows. */
  lemma {:induction false} ChunksAfterLines(ls: seq<string>, rest: string)
    requires AllLines(ls)
    ensures Chunks(Flatten(ls) + rest) == ls + Chunks(rest)
  {
    hide Chunks, IsLine;
    if ls == [] {
      assert Flatten(ls) + rest == rest;
    } else {
      var l, more := ls[0], Flatten(ls[1..]);
      assert Flatten(ls) + rest == l + (more + rest);
      ChunksCons(l, more + rest);
      ChunksAfterLines(ls[1..], rest);
      assert [l] + (ls[1..] + Chunks(rest)) == ls + Chunks(rest);
    }
  }

  /** A file is well formed exactly when it is a list of whole lines one after the other. */
  lemma WellFormedIsLines(s: string)
    ensures WellFormed(s) <==> exists ls :: AllLines(ls) && s == Flatten(ls)
  {
    FlattenChunks(s);
    if ls :| AllLines(ls) && s == Flatten(ls) {
      ChunksOfLines(ls);
    }
  }

  // ---- Decimal numbers ----

  predicate IsDigit(c: char) {
    '0' <= c <= '9'
  }

  function DigitOf(d: nat): char
    requires d < 10
  {
    '0' + d as char
  }

  function DigitValue(c: char): nat
    requires IsDigit(c)
  {
    c as int - '0' as int
  }

  /** `%u` */
  function ShowNat(n: nat): string {
    if n < 10 then [DigitOf(n)] else ShowNat(n / 10) + [DigitOf(n % 10)]
  }

  predicate AllDigits(s: string) {
    forall c :: c in s ==> IsDigit(c)
  }

  function Value(ds: string): nat
    requires AllDigits(ds)
  {
    if ds == "" then 0 else Value(ds[..|ds| - 1]) * 10 + DigitValue(ds[|ds| - 1])
  }

  function LeadingDigits(s: string): (ds: string)
    ensures AllDigits(ds)
  {
    if s == "" || !IsDigit(s[0]) then "" else [s[0]] + LeadingDigits(s[1..])
  }

  predicate IsSpace(c: char) {
    c == ' ' || 9 <= c as int <= 13
  }

  function SkipSpace(s: string): string {
    if s != "" && IsSpace(s[0]) then SkipSpace(s[1..]) else s
  }

  const TWO32: nat := 0x1_0000_0000
  const TWO64: nat := 0x1_0000_0000_0000_0000

  /** `strtoul(s, NULL, 10)` with a 64-bit `unsigned long`; out of range gives ULONG_MAX. */
  function Strtoul(s: string): (v: nat)
    ensures v < TWO64
  {
    var t := SkipSpace(s);
    var negative := t != "" && t[0] == '-';
    var digits := LeadingDigits(if t != "" && (t[0] == '-' || t[0] == '+') then t[1..] else t);
    var v := Value(digits);
    if v >= TWO64 then TWO64 - 1 else if negative && v > 0 then TWO64 - v else v
  }

  /** `(uid_t)strtoul(s, NULL, 10)` */
  function ToId(s: string): (v: nat)
    ensures v < TWO32
  {
    Strtoul(s) % TWO32
  }

  lemma {:induction false} ShowNatDigits(n: nat)
    ensures ShowNat(n) != "" && AllDigits(ShowNat(n)) && Value(ShowNat(n)) == n
  {
    if n >= 10 {
      ShowNatDigits(n / 10);
      assert ShowNat(n)[..|ShowNat(n)| - 1] == ShowNat(n / 10);
    } else {
      assert Value(ShowNat(n)[..0]) == 0;
    }
  }

  lemma {:induction false} LeadingDigitsAll(s: string)
    requires AllDigits(s)
    ensures LeadingDigits(s) == s
  {
    if s != "" {
      assert forall c :: c in s[1..] ==> c in s;
      assert s[0] in s;
      LeadingDigitsAll(s[1..]);
    }
  }

  /** What `%u` prints, `strtoul` reads back. */
  lemma IdRoundTrip(n: nat)
    requires n < TWO32
    ensures ToId(ShowNat(n)) == n
  {
    ShowNatDigits(n);
    assert ShowNat(n)[0] in ShowNat(n);
    LeadingDigitsAll(ShowNat(n));
  }

  lemma {:induction false} SpaceSkipped(blanks: string, rest: string)
    requires (forall c :: c in blanks ==> IsSpace(c)) && (rest == "" || !IsSpace(rest[0]))
    ensures SkipSpace(blanks + rest) == rest
  {
    if blanks == "" {
      assert blanks + rest == rest;
    } else {
      assert blanks[0] in blanks && forall c :: c in blanks[1..] ==> c in blanks;
      assert (blanks + rest)[1..] == blanks[1..] + rest;
      SpaceSkipped(blanks[1..], rest);
    }
  }

  lemma {:induction false} DigitsLead(ds: string, rest: string)
    requires AllDigits(ds) && (rest == "" || !IsDigit(rest[0]))
    ensures LeadingDigits(ds + rest) == ds
  {
    if ds == "" {
      assert ds + rest == rest;
    } else {
      assert ds[0] in ds && forall c :: c in ds[1..] ==> c in ds;
      assert (ds + rest)[1..] == ds[1..] + rest;
      DigitsLead(ds[1..], rest);
    }
  }

  /**
    A number of any size in a field, with blanks and a sign before it and anything but a digit behind: out of the range
    of `unsigned long` it is the largest one, a minus sign negates it there, and the id is what is left of it in 32 bits.
   */
  lemma NumberRead(blanks: string, sign: string, ds: string, rest: string)
    requires (forall c :: c in blanks ==> IsSpace(c)) && ds != "" && AllDigits(ds)
    requires (sign == "" || sign == "+" || sign == "-") && (rest == "" || !IsDigit(rest[0]))
    ensures var v := Value(ds);
            ToId(blanks + sign + ds + rest) ==
            if v >= TWO64 then TWO32 - 1 else if sign == "-" then (TWO64 - v) % TWO32 else v % TWO32
  {
    var t := sign + (ds + rest);
    assert ds[0] in ds;
    assert blanks + sign + ds + rest == blanks + t;
    SignSkipped(sign, ds + rest);
    SpaceSkipped(blanks, t);
    DigitsLead(ds, rest);
    hide LeadingDigits, SkipSpace, Value, AllDigits, IsSpace, IsDigit;
    StrtoulIs(blanks + t, t, sign == "-", ds);
  }

  lemma SignSkipped(sign: string, body: string)
    requires (sign == "" || sign == "+" || sign == "-") && body != "" && IsDigit(body[0])
    ensures var t := sign + body;
            && t != "" && !IsSpace(t[0]) && (t[0] == '-' <==> sign == "-")
            && (if t[0] == '-' || t[0] == '+' then t[1..] else t) == body
  {
  }

  lemma StrtoulIs(s: string, t: string, negative: bool, ds: string)
    requires SkipSpace(s) == t && t != "" && (t[0] == '-' <==> negative)
    requires LeadingDigits(if t[0] == '-' || t[0] == '+' then t[1..] else t) == ds
    ensures AllDigits(ds)
    ensures var v := Value(ds);
            ToId(s) == if v >= TWO64 then TWO32 - 1 else if negative then (TWO64 - v) % TWO32 else v % TWO32
  {
    hide LeadingDigits, SkipSpace, Value;
  }

  lemma {:induction false} ShowNatLen(n: nat, k: nat, bound: nat)
    requires bound == Pow10(k) && k > 0 && n < bound
    ensures |ShowNat(n)| <= k
    decreases k
  {
    if n >= 10 {
      ShowNatLen(n / 10, k - 1, Pow10(k - 1));
    }
  }

  function Pow10(k: nat): nat {
    if k == 0 then 1 else 10 * Pow10(k - 1)
  }

  /** A 32-bit id prints in at most ten digits. */
  lemma IdLen(n: nat)
    requires n < TWO32
    ensures 1 <= |ShowNat(n)| <= 10
  {
    ShowNatDigits(n);
    assert Pow10(10) == 10000000000 by {
      assert Pow10(5) == 100000;
      assert Pow10(6) == 1000000 && Pow10(7) == 10000000 && Pow10(8) == 100000000;
      assert Pow10(9) == 1000000000;
    }
    ShowNatLen(n, 10, Pow10(10));
  }
}
