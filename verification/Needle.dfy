/**
  The streaming needle matcher of matrix_capture.c. It restarts from scratch on a
  mismatch, so it is not a substring search for every needle; the exact class for
  which it is one is found here.
 */
module Needle {
  type Bytes = seq<bv8>

  const WINDOW_MAX: nat := 128

  /** `matched` and `found` of the C structure. */
  datatype Matcher = Matcher(matched: nat, found: bool)

  const START := Matcher(0, false)

  predicate Valid(needle: Bytes, m: Matcher) {
    if needle == [] then m == START
    else if m.found then m.matched == |needle| else m.matched < |needle|
  }

  /** One turn of the loop in `matrix_needle_feed`. */
  function FeedByte(needle: Bytes, m: Matcher, ch: bv8): (r: Matcher)
    requires Valid(needle, m)
    ensures Valid(needle, r)
  {
    if needle == [] || m.found then m
    else if ch == needle[m.matched] then Matcher(m.matched + 1, m.matched + 1 == |needle|)
    else if m.matched > 0 then Matcher(if ch == needle[0] then 1 else 0, false)
    else m
  }

  function Feed(needle: Bytes, m: Matcher, data: Bytes): (r: Matcher)
    requires Valid(needle, m)
    ensures Valid(needle, r)
    decreases |data|
  {
    if data == [] then m else Feed(needle, FeedByte(needle, m, data[0]), data[1..])
  }

  function Capped(needle: Bytes): Bytes {
    if |needle| > WINDOW_MAX then needle[..WINDOW_MAX] else needle
  }

  class NeedleMatcher {
    const needle: Bytes
    var matched: nat
    var found: bool

    function State(): Matcher
      reads this
    {
      Matcher(matched, found)
    }

    /** `matrix_needle_init`; no needle is an empty one. */
    constructor (needle: Bytes)
      ensures this.needle == Capped(needle) && State() == START
      ensures this.needle == if |needle| > 128 then needle[..128] else needle
    {
      this.needle := Capped(needle);
      matched, found := 0, false;
    }

    /** `matrix_needle_feed` */
    method FeedData(data: Bytes)
      requires Valid(needle, State())
      modifies this
      ensures State() == Feed(needle, old(State()), data)
    {
      if found || needle == [] || data == [] {
        if data != [] {
          FeedDone(needle, State(), data);
        }
        return;
      }
      var i := 0;
      assert data[0..] == data;
      while i < |data|
        invariant 0 <= i <= |data| && Valid(needle, State()) && !found
        invariant Feed(needle, State(), data[i..]) == Feed(needle, old(State()), data)
      {
        var ch := data[i];
        assert data[i..][0] == ch && data[i..][1..] == data[i + 1..];
        i := i + 1;
        if ch == needle[matched] {
          matched := matched + 1;
          if matched == |needle| {
            found := true;
            FeedDone(needle, State(), data[i..]);
            return;
          }
          continue;
        }
        if matched > 0 {
          matched := 0;
          if ch == needle[0] {
            matched := 1;
          }
        }
      }
    }
  }

  /** Nothing is read after a find, and nothing without a needle. */
  lemma {:induction false} FeedDone(needle: Bytes, m: Matcher, data: Bytes)
    requires Valid(needle, m) && (m.found || needle == [])
    ensures Feed(needle, m, data) == m
    decreases |data|
  {
    if data != [] {
      FeedDone(needle, m, data[1..]);
    }
  }

  // ---- Chunks ----

  lemma {:induction false} FeedConcat(needle: Bytes, m: Matcher, a: Bytes, b: Bytes)
    requires Valid(needle, m)
    ensures Feed(needle, m, a + b) == Feed(needle, Feed(needle, m, a), b)
    decreases |a|
  {
    if a == [] {
      assert a + b == b;
    } else {
      assert (a + b)[1..] == a[1..] + b;
      FeedConcat(needle, FeedByte(needle, m, a[0]), a[1..], b);
    }
  }

  function Joined(chunks: seq<Bytes>): Bytes {
    if chunks == [] then [] else chunks[0] + Joined(chunks[1..])
  }

  function FeedChunks(needle: Bytes, m: Matcher, chunks: seq<Bytes>): Matcher
    requires Valid(needle, m)
    decreases |chunks|
  {
    if chunks == [] then m else FeedChunks(needle, Feed(needle, m, chunks[0]), chunks[1..])
  }

  /** However the stream is cut, the matcher ends in the state of one big feed. */
  lemma {:induction false} ChunkingIsIrrelevant(needle: Bytes, m: Matcher, chunks: seq<Bytes>)
    requires Valid(needle, m)
    ensures FeedChunks(needle, m, chunks) == Feed(needle, m, Joined(chunks))
    decreases |chunks|
  {
    if chunks != [] {
      FeedConcat(needle, m, chunks[0], Joined(chunks[1..]));
      ChunkingIsIrrelevant(needle, Feed(needle, m, chunks[0]), chunks[1..]);
    }
  }

  // ---- Soundness ----

  function Seen(needle: Bytes, stream: Bytes): Matcher {
    Feed(needle, START, stream)
  }

  predicate OccursAt(needle: Bytes, stream: Bytes, i: nat) {
    i + |needle| <= |stream| && stream[i..i + |needle|] == needle
  }

  predicate Occurs(needle: Bytes, stream: Bytes) {
    exists i: nat :: i <= |stream| && OccursAt(needle, stream, i)
  }

  predicate EndsWith(stream: Bytes, t: Bytes) {
    |t| <= |stream| && stream[|stream| - |t|..] == t
  }

  lemma SeenLast(needle: Bytes, stream: Bytes)
    requires stream != []
    ensures Seen(needle, stream) ==
            FeedByte(needle, Seen(needle, stream[..|stream| - 1]), stream[|stream| - 1])
  {
    var n := |stream| - 1;
    var last := [stream[n]];
    assert stream == stream[..n] + last;
    FeedConcat(needle, START, stream[..n], last);
    assert last[1..] == [];
  }

  /** The matched bytes are the last bytes of the stream; a find is an occurrence. */
  lemma {:induction false} SeenIsSound(needle: Bytes, stream: Bytes)
    requires needle != []
    ensures var m := Seen(needle, stream);
            if m.found then Occurs(needle, stream) else EndsWith(stream, needle[..m.matched])
    decreases |stream|
  {
    if stream != [] {
      var n := |stream| - 1;
      var before := stream[..n];
      SeenLast(needle, stream);
      SeenIsSound(needle, before);
      var m, r := Seen(needle, before), Seen(needle, stream);
      if m.found {
        var i: nat :| i <= |before| && OccursAt(needle, before, i);
        assert stream[i..i + |needle|] == before[i..i + |needle|];
        assert OccursAt(needle, stream, i);
      } else if stream[n] == needle[m.matched] {
        ExtendsMatch(needle, stream, m.matched);
        if r.found {
          assert needle[..m.matched + 1] == needle;
          assert OccursAt(needle, stream, |stream| - |needle|);
        }
      } else if r.matched == 1 {
        assert stream[n..] == needle[..1];
      }
    }
  }

  lemma ExtendsMatch(needle: Bytes, stream: Bytes, k: nat)
    requires stream != [] && k < |needle|
    requires EndsWith(stream[..|stream| - 1], needle[..k]) && stream[|stream| - 1] == needle[k]
    ensures EndsWith(stream, needle[..k + 1])
  {
    var n := |stream| - 1;
    assert stream[n - k..] == stream[..n][n - k..] + [stream[n]];
    assert needle[..k + 1] == needle[..k] + [needle[k]];
  }

  // ---- Completeness ----

  /** Wherever the first byte recurs before the last place, the needle goes on as it began. */
  predicate SelfAligned(needle: Bytes) {
    forall p :: 1 <= p < |needle| - 1 && needle[p] == needle[0] ==> needle[p..] == needle[..|needle| - p]
  }

  /** No partial match longer than `k` ends the stream. */
  predicate NoLonger(needle: Bytes, stream: Bytes, k: nat) {
    forall j :: k < j <= |needle| ==> !EndsWith(stream, needle[..j])
  }

  lemma ShorterMatch(needle: Bytes, stream: Bytes, j: nat)
    requires stream != [] && 1 <= j <= |needle| && EndsWith(stream, needle[..j])
    ensures EndsWith(stream[..|stream| - 1], needle[..j - 1]) && stream[|stream| - 1] == needle[j - 1]
  {
    var n := |stream| - 1;
    var tail := stream[|stream| - j..];
    assert tail == needle[..j];
    assert stream[..n][n - (j - 1)..] == tail[..j - 1] == needle[..j - 1];
    assert tail[j - 1] == stream[n];
  }

  /** After a mismatch at `m`, only the empty match and the first byte can survive. */
  lemma MismatchRestarts(needle: Bytes, stream: Bytes, m: nat, j: nat)
    requires SelfAligned(needle) && stream != [] && m < |needle|
    requires EndsWith(stream[..|stream| - 1], needle[..m]) && NoLonger(needle, stream[..|stream| - 1], m)
    requires stream[|stream| - 1] != needle[m] && 2 <= j <= |needle|
    ensures !EndsWith(stream, needle[..j])
  {
    if EndsWith(stream, needle[..j]) {
      ShorterMatch(needle, stream, j);
      if j - 1 < m {
        TwoSuffixes(needle, stream[..|stream| - 1], m, j - 1);
        BorderContinues(needle, m, j - 1);
      }
      assert false;
    }
  }

  lemma TwoSuffixes(needle: Bytes, stream: Bytes, m: nat, b: nat)
    requires b <= m <= |needle| && EndsWith(stream, needle[..m]) && EndsWith(stream, needle[..b])
    ensures needle[m - b..m] == needle[..b]
  {
    assert stream[|stream| - m..][m - b..] == stream[|stream| - b..];
    assert needle[..m][m - b..] == needle[m - b..m];
  }

  lemma BorderContinues(needle: Bytes, m: nat, b: nat)
    requires SelfAligned(needle) && 1 <= b < m < |needle| && needle[m - b..m] == needle[..b]
    ensures needle[b] == needle[m]
  {
    var p := m - b;
    assert needle[p] == needle[m - b..m][0] == needle[..b][0];
    assert needle[p..][b] == needle[..|needle| - p][b];
  }

  lemma EndsWithFirst(needle: Bytes, stream: Bytes)
    requires stream != [] && needle != []
    ensures EndsWith(stream, needle[..1]) <==> stream[|stream| - 1] == needle[0]
  {
    assert stream[|stream| - 1..] == [stream[|stream| - 1]] && needle[..1] == [needle[0]];
  }

  /** For a self-aligned needle the matcher keeps the longest partial match and misses nothing. */
  lemma {:induction false} SeenIsComplete(needle: Bytes, stream: Bytes)
    requires needle != [] && SelfAligned(needle)
    ensures var m := Seen(needle, stream);
            !m.found ==> !Occurs(needle, stream) && NoLonger(needle, stream, m.matched)
    decreases |stream|
  {
    var r := Seen(needle, stream);
    if stream != [] && !r.found {
      var n := |stream| - 1;
      var before := stream[..n];
      var m := Seen(needle, before);
      SeenLast(needle, stream);
      SeenIsComplete(needle, before);
      SeenIsSound(needle, before);
      forall j | r.matched < j <= |needle|
        ensures !EndsWith(stream, needle[..j])
      {
        if stream[n] == needle[m.matched] {
          if EndsWith(stream, needle[..j]) {
            ShorterMatch(needle, stream, j);
            assert false;
          }
        } else if j >= 2 {
          MismatchRestarts(needle, stream, m.matched, j);
        } else {
          EndsWithFirst(needle, stream);
        }
      }
      NewOccurrenceEnds(needle, stream);
    }
  }

  lemma NewOccurrenceEnds(needle: Bytes, stream: Bytes)
    requires stream != [] && needle != [] && !Occurs(needle, stream[..|stream| - 1])
    requires !EndsWith(stream, needle[..|needle|])
    ensures !Occurs(needle, stream)
  {
    assert needle[..|needle|] == needle;
    var before := stream[..|stream| - 1];
    forall i: nat | i <= |stream|
      ensures !OccursAt(needle, stream, i)
    {
      if i + |needle| < |stream| {
        assert before[i..i + |needle|] == stream[i..i + |needle|];
        assert !OccursAt(needle, before, i);
      } else if i + |needle| == |stream| {
        assert stream[i..i + |needle|] == stream[|stream| - |needle|..];
      }
    }
  }

  // ---- Why no other needle will do ----

  /** Feeding a proper beginning of the needle matches all of it. */
  lemma {:induction false} SeenPrefix(needle: Bytes, k: nat)
    requires k < |needle|
    ensures Seen(needle, needle[..k]) == Matcher(k, false)
  {
    if k > 0 {
      SeenPrefix(needle, k - 1);
      SeenLast(needle, needle[..k]);
      assert needle[..k][..k - 1] == needle[..k - 1];
    }
  }

  /** A find goes back, one byte at a time, to where it began. */
  lemma {:induction false} FoundWasTracked(needle: Bytes, stream: Bytes, t: nat, k: nat)
    requires needle != [] && stream != [] && !Seen(needle, stream[..|stream| - 1]).found
    requires Seen(needle, stream).matched == t && 1 <= k <= t <= |stream|
    ensures Seen(needle, stream[..|stream| - t + k]).matched == k
    decreases |stream|
  {
    if k == t {
      assert stream[..|stream|] == stream;
    } else {
      var before := stream[..|stream| - 1];
      SeenLast(needle, stream);
      assert Seen(needle, before).matched == t - 1;
      SeenEarlier(needle, before);
      FoundWasTracked(needle, before, t - 1, k);
      assert before[..|before| - (t - 1) + k] == stream[..|stream| - t + k];
    }
  }

  /** A stream not found in was not found in one byte earlier. */
  lemma SeenEarlier(needle: Bytes, stream: Bytes)
    requires stream != [] && !Seen(needle, stream).found
    ensures !Seen(needle, stream[..|stream| - 1]).found
  {
    SeenLast(needle, stream);
  }

  predicate Misaligned(needle: Bytes, p: nat) {
    1 <= p < |needle| - 1 && needle[p] == needle[0] && needle[p..] != needle[..|needle| - p]
  }

  lemma {:induction false} FirstMisaligned(needle: Bytes, bound: nat) returns (p: nat)
    requires exists q: nat :: q < bound && Misaligned(needle, q)
    ensures Misaligned(needle, p) && forall q: nat :: q < p ==> !Misaligned(needle, q)
  {
    if q: nat :| q < bound - 1 && Misaligned(needle, q) {
      p := FirstMisaligned(needle, bound - 1);
    } else {
      p := bound - 1;
    }
  }

  lemma {:induction false} FirstDifference(a: Bytes, b: Bytes) returns (q: nat)
    requires |a| == |b| && a != b
    ensures q < |a| && a[q] != b[q] && a[..q] == b[..q]
  {
    if a[0] != b[0] {
      q := 0;
    } else {
      assert a == [a[0]] + a[1..] && b == [b[0]] + b[1..];
      q := FirstDifference(a[1..], b[1..]);
      assert a[..q + 1] == [a[0]] + a[1..][..q] && b[..q + 1] == [b[0]] + b[1..][..q];
      q := q + 1;
    }
  }

  predicate FirstBad(needle: Bytes, p: nat, q: nat) {
    && Misaligned(needle, p) && (forall r: nat :: r < p ==> !Misaligned(needle, r))
    && p + q < |needle| && needle[p + q] != needle[q] && needle[p..p + q] == needle[..q]
  }

  /** The needle does not occur in `needle[..p] + needle` before its end. */
  lemma NoEarlierOccurrence(needle: Bytes, p: nat, q: nat, st: nat)
    requires FirstBad(needle, p, q) && st < p
    ensures !OccursAt(needle, needle[..p] + needle, st)
  {
    var stream := needle[..p] + needle;
    var window, i := stream[st..st + |needle|], p + q - st;
    assert window[0] == stream[st] == needle[st];
    assert window[i] == stream[p + q] == needle[q];
    if st > 0 && needle[st] == needle[0] {
      assert !Misaligned(needle, st);
      assert needle[st..][i] == needle[..|needle| - st][i];
    }
  }

  /** Where the needle does occur, the matcher is elsewhere: it took the repeated beginning for the needle. */
  lemma NotFoundAtEnd(needle: Bytes, p: nat, q: nat)
    requires FirstBad(needle, p, q) && !Seen(needle, needle[..p] + needle[..|needle| - 1]).found
    ensures !Seen(needle, needle[..p] + needle).found
  {
    var stream := needle[..p] + needle;
    assert stream[..|stream| - 1] == needle[..p] + needle[..|needle| - 1];
    assert stream[..p + q] == needle[..p] + needle[p..p + q] == needle[..p + q];
    SeenPrefix(needle, p + q);
    assert q >= 1;
    if Seen(needle, stream).found {
      FoundWasTracked(needle, stream, |needle|, q);
      assert false;
    }
  }

  lemma NotFoundBefore(needle: Bytes, p: nat, q: nat, e: nat)
    requires FirstBad(needle, p, q) && e < p + |needle|
    ensures !Seen(needle, (needle[..p] + needle)[..e]).found
  {
    var stream := needle[..p] + needle;
    if Seen(needle, stream[..e]).found {
      SeenIsSound(needle, stream[..e]);
      var st: nat :| st <= e && OccursAt(needle, stream[..e], st);
      assert stream[..e][st..st + |needle|] == stream[st..st + |needle|];
      NoEarlierOccurrence(needle, p, q, st);
      assert false;
    }
  }

  /** A misaligned needle is missed in the stream that repeats its beginning. */
  lemma MissedWhenMisaligned(needle: Bytes) returns (p: nat)
    requires needle != [] && !SelfAligned(needle)
    ensures Misaligned(needle, p) && forall r: nat :: r < p ==> !Misaligned(needle, r)
    ensures Occurs(needle, needle[..p] + needle) && !Seen(needle, needle[..p] + needle).found
  {
    var w: nat :| 1 <= w < |needle| - 1 && needle[w] == needle[0] && needle[w..] != needle[..|needle| - w];
    assert Misaligned(needle, w);
    p := FirstMisaligned(needle, |needle|);
    var q := FirstDifference(needle[p..], needle[..|needle| - p]);
    assert needle[p..][..q] == needle[p..p + q] && needle[..|needle| - p][..q] == needle[..q];
    var stream := needle[..p] + needle;
    assert OccursAt(needle, stream, p);
    var e := |stream| - 1;
    assert stream[..e] == needle[..p] + needle[..|needle| - 1];
    hide Seen, OccursAt;
    NotFoundBefore(needle, p, q, e);
    NotFoundAtEnd(needle, p, q);
  }

  /** The matcher is a substring search for exactly the self-aligned needles. */
  lemma CompleteExactlyWhenSelfAligned(needle: Bytes)
    requires needle != []
    ensures (forall stream :: Seen(needle, stream).found <==> Occurs(needle, stream)) <==> SelfAligned(needle)
  {
    if SelfAligned(needle) {
      forall stream
        ensures Seen(needle, stream).found <==> Occurs(needle, stream)
      {
        SeenIsSound(needle, stream);
        SeenIsComplete(needle, stream);
      }
    } else {
      var p := MissedWhenMisaligned(needle);
    }
  }

  /** In particular for a needle whose first byte recurs at most at its last place. */
  lemma CompleteForFreshStart(needle: Bytes, stream: Bytes)
    requires needle != [] && forall p :: 1 <= p < |needle| - 1 ==> needle[p] != needle[0]
    ensures Seen(needle, stream).found <==> Occurs(needle, stream)
  {
    CompleteExactlyWhenSelfAligned(needle);
    assert SelfAligned(needle);
  }

  /** The bytes of `/bin/ls`; the stream `/bin/bin/ls` holds them and the matcher misses them. */
  const BIN_LS: Bytes := [47, 98, 105, 110, 47, 108, 115]

  lemma BinLsIsMissed()
    ensures Occurs(BIN_LS, BIN_LS[..4] + BIN_LS) && !Seen(BIN_LS, BIN_LS[..4] + BIN_LS).found
  {
    var needle := BIN_LS;
    assert needle[4..][1] == 108 && needle[..3][1] == 98;
    assert Misaligned(needle, 4);
    var p := MissedWhenMisaligned(needle);
    assert p == 4;
  }
}
