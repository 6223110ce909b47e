/** The 32-bit FNV-1a hash of a stored output, and why it notices a single changed byte. */
module Fnv {
  import opened Needle

  const BASIS: bv32 := 2166136261

  function Mix(h: bv32, b: bv8): bv32 {
    h ^ (b as bv32)
  }

  /** Multiplication by the FNV prime, which 899433627 inverts modulo 2^32. */
  function Scale(x: bv32): bv32 {
    x * 16777619
  }

  function Unscale(y: bv32): bv32 {
    y * 899433627
  }

  /** Xor the byte in, multiply by the FNV prime. */
  function Step(h: bv32, b: bv8): bv32 {
    Scale(Mix(h, b))
  }

  function Hash(h: bv32, s: Bytes): bv32
    decreases |s|
  {
    if s == [] then h else Hash(Step(h, s[0]), s[1..])
  }

  lemma ProductUndone(x: bv32)
    ensures Unscale(x * 16777619) == x
  {
  }

  lemma ScaleUndone(x: bv32)
    ensures Unscale(Scale(x)) == x
  {
    hide Unscale;
    ProductUndone(x);
  }

  lemma StepDiffers(h: bv32, k: bv32, b: bv8, c: bv8)
    requires Mix(h, b) != Mix(k, c)
    ensures Step(h, b) != Step(k, c)
  {
    hide Mix, Scale, Unscale;
    ScaleUndone(Mix(h, b));
    ScaleUndone(Mix(k, c));
  }

  lemma MixHash(h: bv32, k: bv32, b: bv8)
    requires h != k
    ensures Mix(h, b) != Mix(k, b)
  {
  }

  lemma MixByte(h: bv32, b: bv8, c: bv8)
    requires b != c
    ensures Mix(h, b) != Mix(h, c)
  {
  }

  /** The same bytes keep two different hashes different. */
  lemma {:induction false} HashInjective(h: bv32, k: bv32, s: Bytes)
    requires h != k
    ensures Hash(h, s) != Hash(k, s)
    decreases |s|
  {
    hide Mix, Step;
    if s != [] {
      MixHash(h, k, s[0]);
      StepDiffers(h, k, s[0], s[0]);
      HashInjective(Step(h, s[0]), Step(k, s[0]), s[1..]);
    }
  }

  /** Two outputs of one length that differ in exactly one byte have different hashes. */
  lemma {:induction false} OneByteChangesHash(h: bv32, s: Bytes, t: Bytes, i: nat)
    requires |s| == |t| && i < |s| && s[i] != t[i] && s[..i] == t[..i] && s[i + 1..] == t[i + 1..]
    ensures Hash(h, s) != Hash(h, t)
    decreases |s|
  {
    hide Mix, Step;
    if i == 0 {
      assert s[1..] == t[1..];
      MixByte(h, s[0], t[0]);
      StepDiffers(h, h, s[0], t[0]);
      HashInjective(Step(h, s[0]), Step(h, t[0]), s[1..]);
    } else {
      assert s[0] == s[..i][0] == t[..i][0] == t[0];
      assert s[1..][..i - 1] == s[..i][1..] && t[1..][..i - 1] == t[..i][1..];
      assert s[1..][i..] == s[i + 1..] && t[1..][i..] == t[i + 1..];
      OneByteChangesHash(Step(h, s[0]), s[1..], t[1..], i - 1);
    }
  }

  /** Published values of FNV-1a: of nothing, of "a", and of "foobar". */
  lemma KnownHashes()
    ensures Hash(BASIS, []) == 0x811C9DC5
    ensures Hash(BASIS, [97]) == 0xE40C292C
    ensures Hash(BASIS, [102, 111, 111, 98, 97, 114]) == 0xBF9CF968
  {
    var s: Bytes := [102, 111, 111, 98, 97, 114];
    assert [97][1..] == [] && s[1..][1..][1..][1..][1..][1..] == [];
    assert s[1..][0] == s[1..][1..][0] == 111 && s[1..][1..][1..][0] == 98;
  }
}
