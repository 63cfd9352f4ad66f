// Byte strings as the C++ code sees them: std::string contents, their
// lexicographic order, and the little-endian integers it copies with memcpy.
module Bytes {

  type byte = b: int | 0 <= b < 256

  type Str = seq<byte>

  const TWO_32: nat := 0x1_0000_0000
  const TWO_31: int := 0x8000_0000
  const TWO_64: nat := 0x1_0000_0000_0000_0000

  /** std::string's operator<: unsigned bytes, a proper prefix comes first. */
  predicate Less(a: Str, b: Str) {
    b != [] && (a == [] || a[0] < b[0] || (a[0] == b[0] && Less(a[1..], b[1..])))
  }

  lemma {:induction false} LessIrreflexive(a: Str)
    ensures !Less(a, a)
  {
    if a != [] { LessIrreflexive(a[1..]); }
  }

  lemma {:induction false} LessTransitive(a: Str, b: Str, c: Str)
    requires Less(a, b) && Less(b, c)
    ensures Less(a, c)
  {
    if a != [] && a[0] == b[0] == c[0] { LessTransitive(a[1..], b[1..], c[1..]); }
  }

  lemma {:induction false} LessTotal(a: Str, b: Str)
    ensures Less(a, b) || a == b || Less(b, a)
  {
    if a != [] && b != [] && a[0] == b[0] {
      LessTotal(a[1..], b[1..]);
      assert a == [a[0]] + a[1..] && b == [b[0]] + b[1..];
    }
  }

  // ---- little-endian integers ----

  function Pow256(k: nat): (p: nat)
    ensures p >= 1
  {
    if k == 0 then 1 else 256 * Pow256(k - 1)
  }

  lemma {:induction false} Widths()
    ensures Pow256(4) == TWO_32 && Pow256(8) == TWO_64
  {
  }

  /** The k low bytes of n, least significant first. */
  function LE(n: nat, k: nat): (s: Str)
    ensures |s| == k
  {
    if k == 0 then [] else [n % 256] + LE(n / 256, k - 1)
  }

  function FromLE(s: Str): (n: nat)
  {
    if s == [] then 0 else s[0] + 256 * FromLE(s[1..])
  }

  lemma {:induction false} LERoundTrip(n: nat, k: nat)
    requires n < Pow256(k)
    ensures FromLE(LE(n, k)) == n
  {
    if k > 0 {
      LERoundTrip(n / 256, k - 1);
      assert LE(n, k)[1..] == LE(n / 256, k - 1);
    }
  }

  /** Fields have their least significant byte first. */
  lemma {:induction false} ByteWeights(s: Str)
    ensures var b: seq<int> := s;
            |s| == 4 ==> FromLE(s) == b[0] + 0x100 * b[1] + 0x1_0000 * b[2] + 0x100_0000 * b[3]
    ensures |s| == 8 ==> FromLE(s) == FromLE(s[..4]) + TWO_32 * FromLE(s[4..])
  {
    if |s| == 4 || |s| == 8 {
      FourBytes(s);
      FourBytes(s[..4]);
    }
  }

  lemma {:induction false} FourBytes(s: Str)
    requires |s| >= 4
    ensures var b: seq<int> := s;
            FromLE(s) == b[0] + 0x100 * b[1] + 0x1_0000 * b[2] + 0x100_0000 * b[3] + TWO_32 * FromLE(s[4..])
  {
    assert FromLE(s) == s[0] + 256 * FromLE(s[1..]);
    assert s[1..][1..] == s[2..] && s[2..][1..] == s[3..] && s[3..][1..] == s[4..];
    assert FromLE(s[1..]) == s[1] + 256 * FromLE(s[2..]);
    assert FromLE(s[2..]) == s[2] + 256 * FromLE(s[3..]);
    assert FromLE(s[3..]) == s[3] + 256 * FromLE(s[4..]);
  }

  function U32(n: nat): (s: Str) ensures |s| == 4 { LE(n, 4) }
  function U64(n: nat): (s: Str) ensures |s| == 8 { LE(n, 8) }

  lemma {:induction false} U32RoundTrip(n: nat)
    requires n < TWO_32
    ensures FromLE(U32(n)) == n
  {
    Widths();
    LERoundTrip(n, 4);
  }

  lemma {:induction false} U64RoundTrip(n: nat)
    requires n < TWO_64
    ensures FromLE(U64(n)) == n
  {
    Widths();
    LERoundTrip(n, 8);
  }

  /** int32_t as stored in memory: two's complement. */
  function I32(x: int): (s: Str)
    requires -TWO_31 <= x < TWO_31
    ensures |s| == 4
  {
    U32(if x < 0 then x + TWO_32 else x)
  }

  function FromI32(s: Str): int
    requires |s| == 4
  {
    var n := FromLE(s);
    if n < TWO_31 then n else n - TWO_32
  }

  lemma {:induction false} I32RoundTrip(x: int)
    requires -TWO_31 <= x < TWO_31
    ensures FromI32(I32(x)) == x
  {
    U32RoundTrip(if x < 0 then x + TWO_32 else x);
  }
}
