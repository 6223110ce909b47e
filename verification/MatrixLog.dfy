/**
  The matrix protocol: what the guest prints for each case and at the end, and what
  `parse_log` of busybox_applet_matrix.py reads back from it.
 */
module MatrixLog {
  import opened Text
  import opened Classify

  // ---- Numbers ----

  /** `put_u64`: the digits from the right into one buffer, back into another. */
  method PutU64(v: nat) returns (s: string)
    requires v < TWO64
    ensures s == ShowNat(v)
  {
    if v == 0 {
      return "0";
    }
    var tmp := new char[32];
    var i, rest := 0, v;
    ghost var tail := "";
    BelowPow20();
    hide ShowNat, Pow10;
    assert ShowNat(v) + tail == ShowNat(v);
    while rest > 0 && i < 32
      invariant 0 <= i <= 20 && rest < Pow10(20 - i)
      invariant |tail| == i && forall k :: 0 <= k < i ==> tail[k] == tmp[i - 1 - k]
      invariant ShowNat(v) == if rest > 0 then ShowNat(rest) + tail else tail
      invariant i == 0 ==> rest > 0
    {
      ShowNatStep(rest, tail);
      Pow10Step(rest, 20 - i);
      tmp[i] := DigitOf(rest % 10);
      tail := [DigitOf(rest % 10)] + tail;
      i, rest := i + 1, rest / 10;
    }
    s := Reversed(tmp, i);
    assert s == tail;
  }

  /** The loop that copies the digits back in order. */
  method Reversed(tmp: array<char>, n: nat) returns (s: string)
    requires n <= tmp.Length
    ensures |s| == n && forall k :: 0 <= k < n ==> s[k] == tmp[n - 1 - k]
  {
    s := "";
    var i := n;
    while i > 0
      invariant 0 <= i <= n && |s| == n - i
      invariant forall k :: 0 <= k < n - i ==> s[k] == tmp[n - 1 - k]
    {
      i := i - 1;
      s := s + [tmp[i]];
    }
  }

  lemma ShowNatStep(n: nat, tail: string)
    requires n > 0
    ensures var more := [DigitOf(n % 10)] + tail;
            ShowNat(n) + tail == if n / 10 > 0 then ShowNat(n / 10) + more else more
  {
    assert ShowNat(n / 10) + [DigitOf(n % 10)] + tail == ShowNat(n / 10) + ([DigitOf(n % 10)] + tail);
  }

  lemma Pow10Step(n: nat, k: nat)
    requires 0 < n < Pow10(k)
    ensures k > 0 && n / 10 < Pow10(k - 1)
  {
  }

  lemma BelowPow20()
    ensures TWO64 < Pow10(20)
  {
    assert Pow10(5) == 100000;
    assert Pow10(10) == 10000000000 by {
      assert Pow10(6) == 1000000 && Pow10(7) == 10000000 && Pow10(8) == 100000000 && Pow10(9) == 1000000000;
    }
    assert Pow10(12) == 1000000000000 && Pow10(14) == 100000000000000 by {
      assert Pow10(11) == 100000000000 && Pow10(13) == 10000000000000;
    }
    assert Pow10(16) == 10000000000000000 && Pow10(18) == 1000000000000000000 by {
      assert Pow10(15) == 1000000000000000 && Pow10(17) == 100000000000000000;
    }
    assert Pow10(19) == 10000000000000000000;
  }

  const INT_MIN: int := -0x8000_0000
  const INT_MAX: int := 0x7FFF_FFFF

  function ShowInt(v: int): string {
    if v < 0 then "-" + ShowNat(-v) else ShowNat(v)
  }

  /** `put_int`, which avoids negating the smallest int. */
  method PutInt(v: int) returns (s: string)
    requires INT_MIN <= v <= INT_MAX
    ensures s == ShowInt(v)
  {
    if v < 0 {
      var digits := PutU64(-(v + 1) + 1);
      s := "-" + digits;
    } else {
      s := PutU64(v);
    }
  }

  /** The integer written by `-?\d+`. */
  function ParseInt(s: string): int
    requires AllDigits(s) || (s != "" && s[0] == '-' && AllDigits(s[1..]))
  {
    if s != "" && s[0] == '-' then 0 - Value(s[1..]) else Value(s)
  }

  /** A printed integer reads back as itself, the smallest one included. */
  lemma IntRoundTrip(v: int)
    ensures var s := ShowInt(v);
            && (if v < 0 then s[0] == '-' && AllDigits(s[1..]) && s[1..] != "" else AllDigits(s) && s != "" && s[0] != '-')
            && ParseInt(s) == v
  {
    ShowNatDigits(if v < 0 then -v else v);
    if v < 0 {
      assert ShowInt(v)[1..] == ShowNat(-v);
    } else {
      assert ShowInt(v)[0] in ShowInt(v);
    }
  }

  // ---- The guest's log ----

  /** The outcome of one case as it is printed; `hash` is the text of `put_hex32`. */
  datatype CaseLog = CaseLog(name: string, verdict: Verdict, reason: string, ec: int, bytes: nat, hash: string,
                             eof: bool, truncated: bool, reaped: bool, needle: bool,
                             functional: bool, output: bool, capture: bool)

  function StatusText(v: Verdict): string {
    match v
    case Supported => "supported"
    case Partial => "partial"
    case Unavailable => "unavailable"
  }

  function Flag(b: bool): string {
    if b then "1" else "0"
  }

  function BeginLine(number: nat, r: CaseLog): string {
    "BBCASE_BEGIN seq=" + ShowNat(number) + " name=" + r.name + "\n"
  }

  function EndHead(number: nat, r: CaseLog): string {
    "BBCASE_END seq=" + ShowNat(number) + " name=" + r.name +
    " result=" + (if r.verdict == Supported then "PASS" else "FAIL")
  }

  function EndVerdict(r: CaseLog): string {
    " status=" + StatusText(r.verdict) + " reason=" + r.reason + " ec=" + ShowInt(r.ec)
  }

  function EndCapture(r: CaseLog): string {
    " bytes=" + ShowNat(r.bytes) + " hash=" + r.hash + " eof=" + Flag(r.eof) + " truncated=" + Flag(r.truncated)
  }

  function EndFlags(r: CaseLog): string {
    " reaped=" + Flag(r.reaped) + " needle=" + Flag(r.needle) + " functional=" + Flag(r.functional) +
    " output=" + Flag(r.output) + " capture=" + Flag(r.capture) + "\n"
  }

  function EndLine(number: nat, r: CaseLog): string {
    EndHead(number, r) + EndVerdict(r) + EndCapture(r) + EndFlags(r)
  }

  /** The line busybox_applet_matrix.py reads. */
  function AppletLine(r: CaseLog): string {
    "BBMATRIX applet=" + r.name + " status=" + StatusText(r.verdict) + " ec=" + ShowInt(r.ec) + " reason=" + r.reason + "\n"
  }

  function CaseText(number: nat, r: CaseLog): string {
    BeginLine(number, r) + EndLine(number, r) + AppletLine(r)
  }

  function CasesText(rs: seq<CaseLog>): string {
    if rs == [] then "" else CasesText(rs[..|rs| - 1]) + CaseText(|rs| - 1, rs[|rs| - 1])
  }

  function Count(rs: seq<CaseLog>, v: Verdict): nat {
    if rs == [] then 0 else Count(rs[..|rs| - 1], v) + if rs[|rs| - 1].verdict == v then 1 else 0
  }

  function TotalLine(total: nat, supported: nat, partial: nat, unavailable: nat): string {
    "BBMATRIX_TOTAL cases=" + ShowNat(total) + " supported=" + ShowNat(supported) + " partial=" + ShowNat(partial) +
    " unavailable=" + ShowNat(unavailable) + "\n"
  }

  function ResultLine(total: nat, supported: nat, ok: bool): string {
    "BBMATRIX_END result=" + (if ok then "PASS" else "FAIL") +
    " passed=" + ShowNat(supported) + " total=" + ShowNat(total) + "\n"
  }

  function TagLine(ok: bool): string {
    if ok then "BBMATRIX_OK\n" else "BBMATRIX_FAIL capture_or_contract\n"
  }

  function EndText(total: nat, supported: nat, partial: nat, unavailable: nat, ok: bool): string {
    TotalLine(total, supported, partial, unavailable) + ResultLine(total, supported, ok) + TagLine(ok)
  }

  predicate AllSupported(rs: seq<CaseLog>) {
    forall i :: 0 <= i < |rs| ==> rs[i].verdict == Supported
  }

  /** A supported case has its capture flag set, as the classification guarantees. */
  predicate FlagsHold(rs: seq<CaseLog>) {
    forall i :: 0 <= i < |rs| ==> rs[i].verdict == Supported ==> rs[i].capture
  }

  function GuestLog(rs: seq<CaseLog>): string {
    "BBMATRIX_START\n" + CasesText(rs) +
    EndText(|rs|, Count(rs, Supported), Count(rs, Partial), Count(rs, Unavailable), AllSupported(rs))
  }

  lemma {:induction false} TalliesSum(rs: seq<CaseLog>)
    ensures Count(rs, Supported) + Count(rs, Partial) + Count(rs, Unavailable) == |rs|
    ensures Count(rs, Supported) == |rs| <==> AllSupported(rs)
  {
    if rs != [] {
      var before := rs[..|rs| - 1];
      TalliesSum(before);
      assert forall i | 0 <= i < |before| :: before[i] == rs[i];
    }
  }

  /**
    The guest's `main` over any table: the three tallies add up to the number of cases,
    and the PASS result and the BBMATRIX_OK tag are printed together, exactly when every
    case is supported.
   */
  method RunMatrix(rs: seq<CaseLog>) returns (log: string, supported: nat, partial: nat, unavailable: nat, ok: bool)
    requires FlagsHold(rs) && |rs| <= INT_MAX
    requires forall i :: 0 <= i < |rs| ==> INT_MIN <= rs[i].ec <= INT_MAX && rs[i].bytes < TWO64
    ensures supported + partial + unavailable == |rs|
    ensures ok <==> AllSupported(rs)
    ensures log == GuestLog(rs)
  {
    hide CaseText, EndText;
    supported, partial, unavailable := 0, 0, 0;
    var protocolOk := true;
    log := "BBMATRIX_START\n";
    var i := 0;
    while i < |rs|
      invariant 0 <= i <= |rs|
      invariant log == "BBMATRIX_START\n" + CasesText(rs[..i])
      invariant supported == Count(rs[..i], Supported) && partial == Count(rs[..i], Partial)
      invariant unavailable == Count(rs[..i], Unavailable)
      invariant AllSupported(rs[..i]) ==> protocolOk
    {
      assert rs[..i + 1][..i] == rs[..i] && rs[..i + 1][i] == rs[i];
      var r := rs[i];
      if !r.capture {
        protocolOk := false;
      }
      match r.verdict {
        case Supported => supported := supported + 1;
        case Partial => partial := partial + 1;
        case Unavailable => unavailable := unavailable + 1;
      }
      var text := EmitCase(i, r);
      assert CasesText(rs[..i + 1]) == CasesText(rs[..i]) + text;
      log := log + text;
      i := i + 1;
      assert AllSupported(rs[..i]) ==> AllSupported(rs[..i - 1]) && r.verdict == Supported;
    }
    assert rs[..i] == rs;
    TalliesSum(rs);
    ok := protocolOk && supported == |rs| && partial == 0 && unavailable == 0;
    var ending := EmitEnd(|rs|, supported, partial, unavailable, ok);
    log := log + ending;
  }

  /** The end of the log. */
  method EmitEnd(total: nat, supported: nat, partial: nat, unavailable: nat, ok: bool) returns (text: string)
    requires total <= INT_MAX && supported <= total && partial <= total && unavailable <= total
    ensures text == EndText(total, supported, partial, unavailable, ok)
  {
    var n := PutInt(total);
    var s := PutInt(supported);
    var p := PutInt(partial);
    var u := PutInt(unavailable);
    text := "BBMATRIX_TOTAL cases=" + n + " supported=" + s + " partial=" + p + " unavailable=" + u + "\n" +
            ("BBMATRIX_END result=" + (if ok then "PASS" else "FAIL") + " passed=" + s + " total=" + n + "\n");
    text := text + if ok then "BBMATRIX_OK\n" else "BBMATRIX_FAIL capture_or_contract\n";
  }

  /** `emit_case_begin` and `emit_case_end` of one case. */
  method EmitCase(i: nat, r: CaseLog) returns (text: string)
    requires i < TWO64 && INT_MIN <= r.ec <= INT_MAX && r.bytes < TWO64
    ensures text == CaseText(i, r)
  {
    var n := PutU64(i);
    var ec := PutInt(r.ec);
    var bytes := PutU64(r.bytes);
    var head := "BBCASE_END seq=" + n + " name=" + r.name +
    " result=" + (if r.verdict == Supported then "PASS" else "FAIL");
    var verdict := " status=" + StatusText(r.verdict) + " reason=" + r.reason + " ec=" + ec;
    var capture := " bytes=" + bytes + " hash=" + r.hash + " eof=" + Flag(r.eof) + " truncated=" + Flag(r.truncated);
    var applet := "BBMATRIX applet=" + r.name + " status=" + StatusText(r.verdict) + " ec=" + ec +
                    " reason=" + r.reason + "\n";
    text := "BBCASE_BEGIN seq=" + n + " name=" + r.name + "\n" + (head + verdict + capture + EndFlags(r)) + applet;
  }

  // ---- The lines in full ----

  lemma CaseTextSays(i: nat, r: CaseLog)
    ensures CaseText(i, r) ==
            "BBCASE_BEGIN seq=" + ShowNat(i) + " name=" + r.name + "\n" +
            ("BBCASE_END seq=" + ShowNat(i) + " name=" + r.name +
             " result=" + (if r.verdict == Supported then "PASS" else "FAIL") +
             (" status=" + (match r.verdict
                            case Supported => "supported"
                            case Partial => "partial"
                            case Unavailable => "unavailable") + " reason=" + r.reason + " ec=" + ShowInt(r.ec)) +
             (" bytes=" + ShowNat(r.bytes) + " hash=" + r.hash + " eof=" + (if r.eof then "1" else "0") +
              " truncated=" + (if r.truncated then "1" else "0")) +
             (" reaped=" + (if r.reaped then "1" else "0") + " needle=" + (if r.needle then "1" else "0") +
              " functional=" + (if r.functional then "1" else "0") + " output=" + (if r.output then "1" else "0") +
              " capture=" + (if r.capture then "1" else "0") + "\n")) +
            ("BBMATRIX applet=" + r.name + " status=" + StatusText(r.verdict) + " ec=" + ShowInt(r.ec) +
             " reason=" + r.reason + "\n")
  {
    hide ShowNat, ShowInt;
  }

  lemma EndTextSays(total: nat, supported: nat, partial: nat, unavailable: nat, ok: bool)
    ensures EndText(total, supported, partial, unavailable, ok) ==
            "BBMATRIX_TOTAL cases=" + ShowNat(total) + " supported=" + ShowNat(supported) + " partial=" +
            ShowNat(partial) + " unavailable=" + ShowNat(unavailable) + "\n" +
            ("BBMATRIX_END result=" + (if ok then "PASS" else "FAIL") + " passed=" + ShowNat(supported) +
             " total=" + ShowNat(total) + "\n") +
            (if ok then "BBMATRIX_OK\n" else "BBMATRIX_FAIL capture_or_contract\n")
  {
    hide ShowNat;
  }
}
