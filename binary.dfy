/** Bytes and the big-endian integer encodings of Go's encoding/binary package
    (BigEndian.PutUint32, BigEndian.Uint32, BigEndian.Uint16), plus the
    concatenation of a sequence of byte strings. */
module Binary {

  type byte = x: int | 0 <= x < 0x100

  const TwoTo16: int := 0x1_0000
  const TwoTo32: int := 0x1_0000_0000

  /** The four bytes of a uint32, most significant first. */
  function PutUint32(x: int): (b: seq<byte>)
    requires 0 <= x < TwoTo32
    ensures |b| == 4
  {
    [x / 0x100_0000, (x / 0x1_0000) % 0x100, (x / 0x100) % 0x100, x % 0x100]
  }

  /** The uint32 whose big-endian encoding is `b`. */
  function Uint32(b: seq<byte>): (x: int)
    requires |b| == 4
    ensures 0 <= x < TwoTo32
  {
    b[0] as int * 0x100_0000 + b[1] as int * 0x1_0000 + b[2] as int * 0x100 + b[3] as int
  }

  /** The two bytes of a uint16, most significant first. */
  function PutUint16(x: int): (b: seq<byte>)
    requires 0 <= x < TwoTo16
    ensures |b| == 2
  {
    [x / 0x100, x % 0x100]
  }

  /** The uint16 whose big-endian encoding is `b`. */
  function Uint16(b: seq<byte>): (x: int)
    requires |b| == 2
    ensures 0 <= x < TwoTo16
  {
    b[0] as int * 0x100 + b[1] as int
  }

  lemma Uint32OfPutUint32(x: int)
    requires 0 <= x < TwoTo32
    ensures Uint32(PutUint32(x)) == x
  {
    var b := PutUint32(x);
    assert x == (x / 0x100_0000) * 0x100_0000 + x % 0x100_0000;
    assert x % 0x100_0000 == ((x / 0x1_0000) % 0x100) * 0x1_0000 + x % 0x1_0000;
    assert x % 0x1_0000 == ((x / 0x100) % 0x100) * 0x100 + x % 0x100;
  }

  lemma PutUint32OfUint32(b: seq<byte>)
    requires |b| == 4
    ensures PutUint32(Uint32(b)) == b
  {
    var x := Uint32(b);
    DivMod24(b[0], b[1] as int * 0x1_0000 + b[2] as int * 0x100 + b[3] as int);
    DivMod16(b[0] as int * 0x100 + b[1] as int, b[2] as int * 0x100 + b[3] as int);
    DivMod8(b[1], b[0]);
    DivMod8(b[0] as int * 0x1_0000 + b[1] as int * 0x100 + b[2] as int, b[3]);
    DivMod8(b[0] as int * 0x100 + b[1] as int, b[2]);
  }

  lemma DivMod8(q: int, r: int)
    requires 0 <= r < 0x100
    ensures (q * 0x100 + r) / 0x100 == q && (q * 0x100 + r) % 0x100 == r
  {
  }

  lemma DivMod16(q: int, r: int)
    requires 0 <= r < 0x1_0000
    ensures (q * 0x1_0000 + r) / 0x1_0000 == q && (q * 0x1_0000 + r) % 0x1_0000 == r
  {
  }

  lemma DivMod24(q: int, r: int)
    requires 0 <= r < 0x100_0000
    ensures (q * 0x100_0000 + r) / 0x100_0000 == q && (q * 0x100_0000 + r) % 0x100_0000 == r
  {
  }

  lemma PutUint16OfUint16(b: seq<byte>)
    requires |b| == 2
    ensures PutUint16(Uint16(b)) == b
  {
    var x := Uint16(b);
    assert x / 0x100 == b[0];
    assert x % 0x100 == b[1];
  }

  /** The concatenation of `xs`, in order. */
  function Flatten(xs: seq<seq<byte>>): (s: seq<byte>)
  {
    if xs == [] then [] else xs[0] + Flatten(xs[1..])
  }

  /** Cutting `s` into consecutive pieces of `k` bytes and concatenating the pieces gives `s` back. */
  lemma {:induction false} FlattenChunks(xs: seq<seq<byte>>, s: seq<byte>, k: nat)
    requires |s| == k * |xs|
    requires forall i :: 0 <= i < |xs| ==> k * i + k <= |s| && xs[i] == s[k * i .. k * i + k]
    ensures Flatten(xs) == s
  {
    if xs != [] {
      var n := |xs| - 1;
      MulSucc(k, n);
      var tail := s[k..];
      forall i | 0 <= i < n
        ensures k * i + k <= |tail| && xs[1..][i] == tail[k * i .. k * i + k]
      {
        ChunkShift(xs, s, k, i);
      }
      FlattenChunks(xs[1..], tail, k);
      assert xs[0] == s[k * 0 .. k * 0 + k];
      assert s == s[..k] + tail;
    }
  }

  lemma ChunkShift(xs: seq<seq<byte>>, s: seq<byte>, k: nat, i: nat)
    requires |s| == k * |xs| && i + 1 < |xs|
    requires forall i :: 0 <= i < |xs| ==> k * i + k <= |s| && xs[i] == s[k * i .. k * i + k]
    ensures k * i + k + k <= |s|
    ensures xs[i + 1] == s[k..][k * i .. k * i + k]
  {
    MulSucc(k, i);
    MulMono(k, i + 2, |xs|);
    MulSucc(k, i + 1);
    assert xs[i + 1] == s[k * (i + 1) .. k * (i + 1) + k];
  }

  lemma MulMono(k: nat, a: nat, b: nat)
    requires a <= b
    ensures k * a <= k * b
  {
  }

  lemma MulSucc(k: int, i: int)
    ensures k * (i + 1) == k * i + k
  {
  }
}
