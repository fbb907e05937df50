/** The byte layouts shared by the transfer requests: packed little-endian fields and Python slices. */
module Wire {
  import opened Words

  const REPLY_PREFIX := 8

  datatype Result<T> = Ok(value: T) | Err(status: int)

  // Little-endian fields, as packed structs and struct.unpack lay them out.

  function LE16(x: u16): (s: seq<byte>)
    ensures |s| == 2
  {
    var high: int := x / 256;
    [x % 256, high]
  }

  function LE32(x: u32): (s: seq<byte>)
    ensures |s| == 4
  {
    var (a: int, b: int, c: int) := (x / 256, x / 65536, x / 16777216);
    [x % 256, a % 256, b % 256, c]
  }

  function U16At(s: seq<byte>, o: nat): u16
    requires o + 2 <= |s|
  {
    var (a: int, b: int) := (s[o], s[o + 1]);
    a + 256 * b
  }

  function U32At(s: seq<byte>, o: nat): u32
    requires o + 4 <= |s|
  {
    var (a: int, b: int, c: int, d: int) := (s[o], s[o + 1], s[o + 2], s[o + 3]);
    a + 256 * b + 65536 * c + 16777216 * d
  }

  lemma {:induction false} ReadsBack16(s: seq<byte>, o: nat, x: u16)
    requires o + 2 <= |s| && s[o..o + 2] == LE16(x)
    ensures U16At(s, o) == x
  {
    assert s[o] == s[o..o + 2][0] && s[o + 1] == s[o..o + 2][1];
  }

  lemma {:induction false} ReadsBack32(s: seq<byte>, o: nat, x: u32)
    requires o + 4 <= |s| && s[o..o + 4] == LE32(x)
    ensures U32At(s, o) == x
  {
    var t := s[o..o + 4];
    assert s[o] == t[0] && s[o + 1] == t[1] && s[o + 2] == t[2] && s[o + 3] == t[3];
    var y := x / 256;
    var z := y / 256;
    assert x / 65536 == z && x / 16777216 == z / 256;
    assert x == 256 * y + x % 256 && y == 256 * z + y % 256 && z == 256 * (z / 256) + z % 256;
  }

  /** s[a:b], which never fails. */
  function Slice(s: seq<byte>, a: nat, b: nat): (r: seq<byte>)
    requires a <= b
  {
    s[if a < |s| then a else |s| .. if b < |s| then b else |s|]
  }

  function Init<T>(s: seq<T>): (r: seq<T>)
    requires s != []
    ensures |r| == |s| - 1
  {
    s[..|s| - 1]
  }

  function Last<T>(s: seq<T>): T
    requires s != []
  {
    s[|s| - 1]
  }

  lemma InitOfPrefix<T>(s: seq<T>, i: nat)
    requires i < |s|
    ensures s[..i + 1] != [] && Init(s[..i + 1]) == s[..i] && Last(s[..i + 1]) == s[i]
  {
    assert s[..i + 1][..i] == s[..i];
  }

  lemma SliceOfSlice<T>(s: seq<T>, o: nat, n: nat, a: nat, b: nat)
    requires a <= b <= n && o + n <= |s|
    ensures s[o..o + n][a..b] == s[o + a..o + b]
  {
    var u, v := s[o..o + n][a..b], s[o + a..o + b];
    forall i | 0 <= i < b - a
      ensures u[i] == v[i]
    {
      assert u[i] == s[o..o + n][a + i];
    }
  }

  lemma ThreeParts<T>(h: seq<T>, d: seq<T>, t: seq<T>)
    ensures (h + d + t)[0..|h|] == h
    ensures (h + d + t)[|h|..|h| + |d|] == d
    ensures (h + d + t)[|h| + |d|..] == t
  {
  }

  // Filling a zeroed request buffer: a head, an area for descriptors, then data.

  function Zeros(n: nat): (s: seq<byte>)
    ensures |s| == n
    ensures forall i :: 0 <= i < n ==> s[i] == 0
  {
    seq(n, _ => 0)
  }

  /** The buffer holds its head, the first descriptors of an otherwise zero area, and the first data. */
  ghost predicate Filled(req: seq<byte>, head: seq<byte>, descs: seq<byte>, area: nat, data: seq<byte>) {
    && |descs| <= area && |head| + area + |data| <= |req|
    && req[..|head|] == head
    && req[|head|..|head| + |descs|] == descs
    && (forall k :: |head| + |descs| <= k < |head| + area ==> req[k] == 0)
    && req[|head| + area..|head| + area + |data|] == data
  }

  lemma StartFilling(zeroed: seq<byte>, req: seq<byte>, head: seq<byte>, area: nat)
    requires |head| + area <= |zeroed| && forall k :: 0 <= k < |zeroed| ==> zeroed[k] == 0
    requires CopiedTo(zeroed, req, 0, head)
    ensures Filled(req, head, [], area, [])
  {
  }

  lemma KeptOutside(before: seq<byte>, after: seq<byte>, p: nat, data: seq<byte>, a: nat, b: nat)
    requires CopiedTo(before, after, p, data) && a <= b <= |before| && (b <= p || p + |data| <= a)
    ensures after[a..b] == before[a..b]
  {
  }

  lemma PutDescriptor(req: seq<byte>, req': seq<byte>, head: seq<byte>, descs: seq<byte>, area: nat, data: seq<byte>,
                      d: seq<byte>, pad: nat)
    requires Filled(req, head, descs, area, data) && |descs| + |d| + pad <= area
    requires CopiedTo(req, req', |head| + |descs|, d)
    ensures Filled(req', head, descs + (d + Zeros(pad)), area, data)
  {
    var h, p := |head|, |head| + |descs|;
    KeptOutside(req, req', p, d, 0, h);
    KeptOutside(req, req', p, d, h, p);
    KeptOutside(req, req', p, d, h + area, h + area + |data|);
    assert req'[p..p + |d|] == d;
    assert req'[p + |d|..p + |d| + pad] == Zeros(pad);
    Adjacent(req', h, p, p + |d| + pad);
    Adjacent(req', p, p + |d|, p + |d| + pad);
  }

  lemma Adjacent<T>(s: seq<T>, a: nat, b: nat, c: nat)
    requires a <= b <= c <= |s|
    ensures s[a..c] == s[a..b] + s[b..c]
  {
  }

  lemma PutData(req: seq<byte>, req': seq<byte>, head: seq<byte>, descs: seq<byte>, area: nat, data: seq<byte>,
                chunk: seq<byte>)
    requires Filled(req, head, descs, area, data)
    requires CopiedTo(req, req', |head| + area + |data|, chunk)
    ensures Filled(req', head, descs, area, data + chunk)
  {
    var h, p := |head|, |head| + area + |data|;
    KeptOutside(req, req', p, chunk, 0, h);
    KeptOutside(req, req', p, chunk, h, h + |descs|);
    KeptOutside(req, req', p, chunk, h + area, p);
    assert req'[p..p + |chunk|] == chunk;
    Adjacent(req', h + area, p, p + |chunk|);
  }

  lemma FilledCompletely(req: seq<byte>, head: seq<byte>, descs: seq<byte>, data: seq<byte>)
    requires Filled(req, head, descs, |descs|, data) && |req| == |head| + |descs| + |data|
    ensures req == head + descs + data
  {
    var h, d := |head|, |head| + |descs|;
    assert req == req[..h] + req[h..d] + req[d..|req|];
  }
}
