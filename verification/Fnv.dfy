/** FNV-1a over the bytes of a name, and the addresses derived from it (src/helper.rs). */
module Fnv {
  import opened Bits
  import opened Addresses

  type Byte = n: nat | n < 256

  const OFFSET_BASIS: nat := 0xcbf2_9ce4_8422_2325
  const PRIME: nat := 0x100_0000_01b3

  /** The inverse of the prime modulo 2^64. */
  const PRIME_INVERSE: nat := 0xce96_5057_aff6_957b

  function Step(h: nat, b: Byte): nat {
    Xor(h, b) * PRIME % TWO64
  }

  function Fold(h: nat, bytes: seq<Byte>): nat
    decreases |bytes|
  {
    if bytes == [] then h else Fold(Step(h, bytes[0]), bytes[1..])
  }

  function Hash(bytes: seq<Byte>): nat {
    Fold(OFFSET_BASIS, bytes)
  }

  lemma {:induction false} FoldBound(h: nat, bytes: seq<Byte>)
    requires h < TWO64
    ensures Fold(h, bytes) < TWO64
    decreases |bytes|
  {
    if bytes != [] {
      FoldBound(Step(h, bytes[0]), bytes[1..]);
    }
  }

  /** Multiplying by the prime can be undone, so it loses nothing modulo 2^64. */
  lemma MultiplyIsInvertible(x: nat)
    requires x < TWO64
    ensures x * PRIME % TWO64 * PRIME_INVERSE % TWO64 == x
  {
    var r, k := x * PRIME % TWO64, x * PRIME / TWO64;
    assert PRIME * PRIME_INVERSE == 887285111055 * TWO64 + 1;
    assert r * PRIME_INVERSE == TWO64 * (887285111055 * x - PRIME_INVERSE * k) + x;
    ModUnique(r * PRIME_INVERSE, TWO64, 887285111055 * x - PRIME_INVERSE * k, x);
  }

  lemma StepInjective(h: nat, b: Byte, h': nat, b': Byte)
    requires h < TWO64 && h' < TWO64 && Step(h, b) == Step(h', b')
    ensures Xor(h, b) == Xor(h', b')
  {
    PowersOfWidths();
    XorBound(h, b, 64);
    XorBound(h', b', 64);
    MultiplyIsInvertible(Xor(h, b));
    MultiplyIsInvertible(Xor(h', b'));
  }

  lemma StepKeepsStatesApart(h: nat, h': nat, b: Byte)
    requires h < TWO64 && h' < TWO64 && h != h'
    ensures Step(h, b) != Step(h', b)
  {
    if Step(h, b) == Step(h', b) {
      StepInjective(h, b, h', b);
      XorInvolutive(h, b);
      XorInvolutive(h', b);
    }
  }

  lemma StepSeparatesBytes(h: nat, b: Byte, b': Byte)
    requires h < TWO64 && b != b'
    ensures Step(h, b) != Step(h, b')
  {
    if Step(h, b) == Step(h, b') {
      StepInjective(h, b, h, b');
      XorCommutes(h, b);
      XorCommutes(h, b');
      XorInvolutive(b, h);
      XorInvolutive(b', h);
    }
  }

  lemma {:induction false} FoldKeepsStatesApart(h: nat, h': nat, bytes: seq<Byte>)
    requires h < TWO64 && h' < TWO64 && h != h'
    ensures Fold(h, bytes) != Fold(h', bytes)
    decreases |bytes|
  {
    if bytes != [] {
      StepKeepsStatesApart(h, h', bytes[0]);
      FoldKeepsStatesApart(Step(h, bytes[0]), Step(h', bytes[0]), bytes[1..]);
    }
  }

  lemma {:induction false} FoldSplit(h: nat, bytes: seq<Byte>, k: nat)
    requires k <= |bytes|
    ensures Fold(h, bytes) == Fold(Fold(h, bytes[..k]), bytes[k..])
    decreases k
  {
    if k > 0 {
      FoldSplit(Step(h, bytes[0]), bytes[1..], k - 1);
      assert bytes[..k][1..] == bytes[1..][..k - 1];
      assert bytes[1..][k - 1..] == bytes[k..];
    } else {
      assert bytes[0..] == bytes;
    }
  }

  /** Names of equal length that differ in exactly one byte never share a hash. */
  lemma OneByteApart(s: seq<Byte>, t: seq<Byte>, k: nat)
    requires |s| == |t| && k < |s| && s[k] != t[k]
    requires forall i :: 0 <= i < |s| && i != k ==> s[i] == t[i]
    ensures Hash(s) != Hash(t)
  {
    var h := Fold(OFFSET_BASIS, s[..k]);
    assert s[..k] == t[..k] && s[k..][1..] == t[k..][1..];
    FoldBound(OFFSET_BASIS, s[..k]);
    FoldSplit(OFFSET_BASIS, s, k);
    FoldSplit(OFFSET_BASIS, t, k);
    StepSeparatesBytes(h, s[k], t[k]);
    FoldKeepsStatesApart(Step(h, s[k]), Step(h, t[k]), s[k..][1..]);
  }

  // ---------- a published value ----------

  lemma FoldOne(h: nat, b: Byte)
    ensures Fold(h, [b]) == Step(h, b)
  {
    assert [b][1..] == [];
    assert Fold(Step(h, b), []) == Step(h, b);
  }

  lemma StepValue(h: nat, high: nat, low: nat, b: Byte, x: nat)
    requires low < 256 && h == 256 * high + low && Xor(low, b) == x
    ensures Step(h, b) == (256 * high + x) * PRIME % TWO64
  {
    XorLowByte(high, low, b);
  }

  lemma XorOfA()
    ensures Xor(0x25, 0x61) == 0x44
  {
    XorUnfold(0x25, 0x61);
    XorUnfold(0x12, 0x30);
    XorUnfold(9, 0x18);
    XorUnfold(4, 12);
    XorUnfold(2, 6);
    XorUnfold(1, 3);
  }

  lemma FoldOfA(h: nat, b: Byte)
    requires h == 256 * 0xcb_f29c_e484_2223 + 0x25 && Xor(0x25, b) == 0x44
    ensures Fold(h, [b]) == 0xaf63_dc4c_8601_ec8c
  {
    StepOfA(h, b);
    FoldOne(h, b);
    ProductOfA();
  }

  lemma StepOfA(h: nat, b: Byte)
    requires h == 256 * 0xcb_f29c_e484_2223 + 0x25 && Xor(0x25, b) == 0x44
    ensures Step(h, b) == (256 * 0xcb_f29c_e484_2223 + 0x44) * PRIME % TWO64
  {
    StepValue(h, 0xcb_f29c_e484_2223, 0x25, b, 0x44);
  }

  lemma ProductOfA()
    ensures 0xcbf2_9ce4_8422_2344 * PRIME % TWO64 == 0xaf63_dc4c_8601_ec8c
  {
  }

  /** The published 64-bit FNV-1a values of the empty text and of the letter a. */
  lemma PublishedValues(b: Byte)
    requires b == 0x61
    ensures Hash([]) == 0xcbf2_9ce4_8422_2325 && Hash([b]) == 0xaf63_dc4c_8601_ec8c
  {
    XorOfA();
    FoldOfA(OFFSET_BASIS, b);
  }

  // ---------- IPv4 candidates ----------

  const BASE: nat := 0xC612_0000   // 198.18.0.0
  const MANAGED: nat := 131069

  /** 198.18.0.2 up to 198.19.255.254. */
  predicate IsManaged(a: nat) {
    BASE + 2 <= a < BASE + 2 + MANAGED
  }

  function SourceIp(bytes: seq<Byte>, attempt: nat): (a: U32)
    ensures IsManaged(a)
  {
    BASE + ((Hash(bytes) % MANAGED + attempt) % MANAGED + 2)
  }

  /** The attempt that reaches a managed address. */
  function AttemptFor(bytes: seq<Byte>, a: nat): (attempt: nat)
    requires IsManaged(a)
    ensures attempt < MANAGED
  {
    (a - BASE - 2 + MANAGED - Hash(bytes) % MANAGED) % MANAGED
  }

  /** The 131069 attempts are a permutation of the managed addresses: each address is reached by exactly one
      attempt. The sums stay far below 2^32. */
  lemma ProbeIsPermutation(bytes: seq<Byte>, a: nat, attempt: nat)
    requires IsManaged(a) && attempt < MANAGED
    ensures SourceIp(bytes, attempt) == a <==> attempt == AttemptFor(bytes, a)
    ensures Hash(bytes) % MANAGED + attempt < TWO32
  {
  }

  ghost predicate AllProbesUsed(bytes: seq<Byte>, first: nat, used: U32 -> bool) {
    forall i :: first <= i < MANAGED ==> used(SourceIp(bytes, i))
  }

  ghost predicate AllManagedUsed(used: U32 -> bool) {
    forall a: U32 :: IsManaged(a) ==> used(a)
  }

  /** So a property holds of all attempts exactly when it holds of all managed addresses. */
  lemma ProbeCoversRange(bytes: seq<Byte>, used: U32 -> bool)
    ensures AllProbesUsed(bytes, 0, used) <==> AllManagedUsed(used)
  {
    if AllProbesUsed(bytes, 0, used) {
      forall a: U32 | IsManaged(a) ensures used(a) {
        var i := AttemptFor(bytes, a);
        ProbeIsPermutation(bytes, a, i);
        assert used(SourceIp(bytes, i));
      }
    }
  }

  // ---------- IPv6 candidates ----------

  function SourceIpv6(prefix: U128, bytes: seq<Byte>, attempt: nat): nat {
    Or(And(prefix, ShiftedOnes(128, 64)), (Hash(bytes) + attempt) % TWO64)
  }

  lemma SourceIpv6Value(prefix: U128, bytes: seq<Byte>, attempt: nat)
    ensures SourceIpv6(prefix, bytes, attempt) == prefix / TWO64 * TWO64 + (Hash(bytes) + attempt) % TWO64
  {
    PowersOfWidths();
    ShiftedOnesValue(128, 64);
    MaskClearsLowBits(128, 64, prefix);
    OrDisjoint(64, prefix / TWO64, (Hash(bytes) + attempt) % TWO64);
  }

  /** Every candidate is an address with the 64 prefix bits of the interface. */
  lemma CandidateKeepsPrefix(prefix: U128, bytes: seq<Byte>, attempt: nat)
    ensures SourceIpv6(prefix, bytes, attempt) / TWO64 == prefix / TWO64
    ensures SourceIpv6(prefix, bytes, attempt) < TWO128
  {
    SourceIpv6Value(prefix, bytes, attempt);
    UpperHalf(prefix / TWO64, (Hash(bytes) + attempt) % TWO64);
  }

  lemma UpperHalf(high: nat, low: nat)
    requires high < TWO64 && low < TWO64
    ensures (high * TWO64 + low) / TWO64 == high && high * TWO64 + low < TWO128
  {
  }

  /** One name: its candidates for different attempts all differ. */
  lemma CandidatesDiffer(prefix: U128, bytes: seq<Byte>, i: nat, j: nat)
    requires i < j < TWO64
    ensures SourceIpv6(prefix, bytes, i) != SourceIpv6(prefix, bytes, j)
  {
    SourceIpv6Value(prefix, bytes, i);
    SourceIpv6Value(prefix, bytes, j);
    ShiftedSumsDiffer(Hash(bytes), i, j);
  }

  lemma ShiftedSumsDiffer(h: nat, i: nat, j: nat)
    requires i < j < TWO64
    ensures (h + i) % TWO64 != (h + j) % TWO64
  {
  }

  /** Two names one byte apart: their candidates for the same attempt differ. */
  lemma CandidatesOfCloseNamesDiffer(prefix: U128, s: seq<Byte>, t: seq<Byte>, k: nat, attempt: nat)
    requires |s| == |t| && k < |s| && s[k] != t[k]
    requires forall i :: 0 <= i < |s| && i != k ==> s[i] == t[i]
    ensures SourceIpv6(prefix, s, attempt) != SourceIpv6(prefix, t, attempt)
  {
    OneByteApart(s, t, k);
    FoldBound(OFFSET_BASIS, s);
    FoldBound(OFFSET_BASIS, t);
    SourceIpv6Value(prefix, s, attempt);
    SourceIpv6Value(prefix, t, attempt);
    AddingKeepsApart(Hash(s), Hash(t), attempt);
  }

  lemma AddingKeepsApart(a: nat, b: nat, attempt: nat)
    requires a < TWO64 && b < TWO64 && a != b
    ensures (a + attempt) % TWO64 != (b + attempt) % TWO64
  {
  }
}
