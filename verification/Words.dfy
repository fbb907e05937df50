/** Machine words, bytes and the modular arithmetic every ring and arena of the bridge relies on. */
module Words {

  const U16: int := 0x1_0000
  const U32: int := 0x1_0000_0000
  const U64: int := 0x1_0000_0000_0000_0000

  /** The largest payload either side accepts. */
  const MAX_PAYLOAD: nat := 4 * 1024 * 1024

  // Negated error numbers, as the kernel returns them.

  const ENOENT: int := -2
  const EBUSY: int := -16
  const EEXIST: int := -17
  const ENODEV: int := -19
  const EINVAL: int := -22
  const EPIPE: int := -32
  const ERANGE: int := -34
  const EPROTO: int := -71
  const EMSGSIZE: int := -90
  const EOPNOTSUPP: int := -95
  const ETIMEDOUT: int := -110

  type byte = x: int | 0 <= x < 256
  type u16 = x: int | 0 <= x < 0x1_0000
  type u32 = x: int | 0 <= x < 0x1_0000_0000

  datatype Option<+T> = None | Some(value: T)

  /** Truncation of an unbounded counter to the 32-bit word the shared page stores. */
  function Word(x: int): (w: u32) {
    x % U32
  }

  function Min(a: nat, b: nat): (m: nat)
    ensures m <= a && m <= b && (m == a || m == b)
  {
    if a < b then a else b
  }

  lemma MulMono(a: int, b: int, m: nat)
    requires a <= b
    ensures a * m <= b * m
  {
    assert b * m == a * m + (b - a) * m;
  }

  /** Zero is the only multiple of m strictly between -m and m. */
  lemma OnlyZeroMultiple(d: int, m: nat)
    requires 0 < d * m + m < 2 * m
    ensures d == 0
  {
    if d >= 1 {
      MulMono(1, d, m);
    } else if d < 0 {
      MulMono(d, -1, m);
    }
  }

  lemma {:induction false} ModOfSum(q: nat, r: nat, m: nat)
    requires r < m
    ensures (q * m + r) % m == r && (q * m + r) / m == q
  {
    var x := q * m + r;
    assert (x / m - q) * m == r - x % m;
    OnlyZeroMultiple(x / m - q, m);
  }

  /** Two positions less than one lap apart never share a slot. */
  lemma {:induction false} DistinctWithinLap(p: nat, q: nat, m: nat)
    requires p < q < p + m
    ensures p % m != q % m
  {
    if p % m == q % m {
      assert (q / m - p / m) * m == q - p;
      OnlyZeroMultiple(q / m - p / m, m);
    }
  }

  /** A run of bytes that does not straddle the end of its zone is contiguous there. */
  lemma {:induction false} NoStraddle(off: nat, k: nat, m: nat)
    requires m > 0 && off % m + k < m
    ensures (off + k) % m == off % m + k
  {
    assert off + k == (off / m) * m + (off % m + k);
    ModOfSum(off / m, off % m + k, m);
  }

  /** Skipping to the start of the next lap lands on slot zero. */
  lemma {:induction false} SkipLandsOnZero(off: nat, m: nat)
    requires m > 0
    ensures (off + (m - off % m)) % m == 0
  {
    var q := off / m + 1;
    assert off + (m - off % m) == q * m + 0;
    ModOfSum(q, 0, m);
  }

  /** When m divides 2^32, or the counter never wrapped, truncating the counter keeps its slot. */
  lemma {:induction false} WordKeepsSlot(g: nat, m: nat)
    requires m > 0 && (U32 % m == 0 || g < U32)
    ensures Word(g) % m == g % m
  {
    if U32 % m == 0 {
      var a := U32 / m;
      var b := g / U32;
      var w := g % U32;
      assert U32 == a * m;
      assert g == b * U32 + w;
      assert w == (w / m) * m + w % m;
      var q := b * a + w / m;
      assert b * U32 == (b * a) * m;
      assert g == q * m + w % m by {
        assert q * m == (b * a) * m + (w / m) * m;
      }
      ModOfSum(q, w % m, m);
    }
  }

  /** Adding to a truncated counter and truncating again is adding to the counter itself. */
  lemma WordAdd(g: nat, d: nat)
    ensures Word(Word(g) + d) == Word(g + d)
  {
  }

  /** Two counters less than 2^32 apart are recovered from their words by 32-bit subtraction. */
  lemma WordDistance(h: nat, t: nat)
    requires h <= t < h + U32
    ensures Word(Word(t) - Word(h)) == t - h
    ensures Word(h) == Word(t) <==> h == t
  {
  }

  /** The buffer with data copied to offset p. */
  ghost predicate CopiedTo(before: seq<byte>, after: seq<byte>, p: nat, data: seq<byte>) {
    && |after| == |before| && p + |data| <= |before|
    && forall k :: 0 <= k < |before| ==> after[k] == if p <= k < p + |data| then data[k - p] else before[k]
  }

  /** Two copies side by side are one. */
  lemma CopiesJoin(s0: seq<byte>, s1: seq<byte>, s2: seq<byte>, p: nat, d: seq<byte>, e: seq<byte>)
    requires CopiedTo(s0, s1, p, d) && CopiedTo(s1, s2, p + |d|, e)
    ensures CopiedTo(s0, s2, p, d + e)
  {
  }

  /** memcpy into a buffer. */
  method CopyInto(a: array<byte>, p: nat, data: seq<byte>)
    requires p + |data| <= a.Length
    modifies a
    ensures CopiedTo(old(a[..]), a[..], p, data)
  {
    forall i | 0 <= i < |data| {
      a[p + i] := data[i];
    }
  }
}
