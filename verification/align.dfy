/** `ObjectFileGenerator.align_data` and the size constant every encoder
    appends to the aligned blob. */
module Align {
  import opened Bytes
  import opened Inputs

  /** The remainder of n by a, by repeated subtraction; `RemIsMod` shows it is `n % a`.
      Written recursively so that the solver only unfolds it on demand. */
  function Rem(n: nat, a: nat): (r: nat)
    requires a > 0
    ensures r < a
    decreases n
  {
    if n < a then n else Rem(n - a, a)
  }

  /** The padding `align_data` appends: none when the length is already a
      multiple, otherwise the distance to the next multiple. */
  function Padding(len: nat, alignment: nat): nat
    requires alignment > 0
  {
    var r := Rem(len, alignment);
    if r == 0 then 0 else alignment - r
  }

  // ---------------------------------------------------------------------
  // Division facts the padding arithmetic needs
  // ---------------------------------------------------------------------

  lemma {:induction false} MulMono(x: int, y: int, a: int)
    requires a >= 0
    ensures x <= y ==> x * a <= y * a
  {
    if x <= y {
      assert y * a - x * a == (y - x) * a;
    }
  }

  /** Division with remainder has one answer. */
  lemma {:induction false} DivModUnique(n: int, a: int, q: int, r: int)
    requires a > 0 && 0 <= r < a && n == q * a + r
    ensures n / a == q && n % a == r
  {
    var q0 := n / a;
    var d := q - q0;
    assert d * a == n % a - r by {
      assert n == q0 * a + n % a;
      assert d * a == q * a - q0 * a;
    }
    MulMono(d, 0, a);
    MulMono(1, d, a);
  }

  lemma {:induction false} RemIsMod(n: nat, a: nat)
    requires a > 0
    ensures Rem(n, a) == n % a
    decreases n
  {
    if n >= a {
      RemIsMod(n - a, a);
      DivModUnique(n, a, (n - a) / a + 1, (n - a) % a);
    } else {
      DivModUnique(n, a, 0, n);
    }
  }

  /** Padding is the source's `(alignment - len % alignment) % alignment`. */
  lemma {:induction false} PaddingFormula(n: nat, a: nat)
    requires a > 0
    ensures Padding(n, a) == (a - n % a) % a
  {
    RemIsMod(n, a);
    if n % a == 0 {
      DivModUnique(a, a, 1, 0);
    } else {
      DivModUnique(a - n % a, a, 0, a - n % a);
    }
  }

  /** What the padding computes: it is less than the alignment, and the
      padded length is a multiple of it, namely the length rounded up. */
  lemma {:induction false} PaddingFacts(n: nat, a: nat)
    requires a > 0
    ensures Padding(n, a) < a
    ensures n % a == 0 ==> Padding(n, a) == 0
    ensures n % a != 0 ==> Padding(n, a) == a - n % a
    ensures (n + Padding(n, a)) % a == 0
    ensures (n + Padding(n, a)) / a == (n + a - 1) / a
  {
    RemIsMod(n, a);
    var q := n / a;
    var r := n % a;
    assert n == q * a + r;
    if r == 0 {
      DivModUnique(n, a, q, 0);
      DivModUnique(n + a - 1, a, q, a - 1);
    } else {
      assert (q + 1) * a == q * a + a;
      DivModUnique(n + a - r, a, q + 1, 0);
      DivModUnique(n + a - 1, a, q + 1, r - 1);
    }
  }

  /** `data + b'\x00' * padding`: the blob zero-padded to a multiple of the alignment. */
  function AlignData(data: seq<byte>, alignment: nat): (r: seq<byte>)
    requires alignment > 0
    ensures |data| <= |r| < |data| + alignment
    ensures |r| % alignment == 0
    ensures r[..|data|] == data
    ensures forall i :: |data| <= i < |r| ==> r[i] == 0
  {
    PaddingFacts(|data|, alignment);
    var r := data + Zeros(Padding(|data|, alignment));
    assert r[..|data|] == data;
    r
  }

  /** The reference definition: round the length up to the next multiple. */
  function RoundUp(n: nat, alignment: nat): nat
    requires alignment > 0
  {
    ((n + alignment - 1) / alignment) * alignment
  }

  /** The padded length is the smallest multiple of the alignment that holds
      the data. */
  lemma {:induction false} AlignedLength(data: seq<byte>, alignment: nat)
    requires alignment > 0
    ensures |AlignData(data, alignment)| == RoundUp(|data|, alignment)
    ensures forall m: nat :: |data| <= m && m % alignment == 0 ==> |AlignData(data, alignment)| <= m
  {
    var n := |data|;
    var len := n + Padding(n, alignment);
    PaddingFacts(n, alignment);
    assert len == (len / alignment) * alignment + len % alignment;
    forall m: nat | n <= m && m % alignment == 0
      ensures |AlignData(data, alignment)| <= m
    {
      MultipleAbove(n, m, alignment);
    }
  }

  /** A multiple of the alignment at or above n is at or above n rounded up. */
  lemma {:induction false} MultipleAbove(n: nat, m: nat, alignment: nat)
    requires alignment > 0 && n <= m && m % alignment == 0
    ensures n + Padding(n, alignment) <= m
  {
    PaddingFacts(n, alignment);
    if n % alignment != 0 {
      var q := n / alignment;
      var mq := m / alignment;
      assert n == q * alignment + n % alignment;
      assert m == mq * alignment;
      MulMono(mq, q, alignment);
      assert q + 1 <= mq;
      MulMono(q + 1, mq, alignment);
      MulSucc(q, alignment);
    }
  }

  lemma {:induction false} MulSucc(q: int, a: int)
    ensures (q + 1) * a == q * a + a
  {
  }

  /** Already-aligned data comes back unchanged. */
  lemma {:induction false} AlignedUnchanged(data: seq<byte>, alignment: nat)
    requires alignment > 0 && |data| % alignment == 0
    ensures AlignData(data, alignment) == data
  {
    PaddingFacts(|data|, alignment);
    assert data + Zeros(0) == data;
  }

  /** Aligning twice is aligning once. */
  lemma {:induction false} AlignIdempotent(data: seq<byte>, alignment: nat)
    requires alignment > 0
    ensures AlignData(AlignData(data, alignment), alignment) == AlignData(data, alignment)
  {
    AlignedUnchanged(AlignData(data, alignment), alignment);
  }

  /** The worked example: 33 bytes at alignment 4 become 36. */
  lemma {:induction false} AlignExample(data: seq<byte>)
    requires |data| == 33
    ensures |AlignData(data, 4)| == 36
  {
    PaddingFacts(33, 4);
  }

  /** The size constant: `struct.pack('<Q', size)` on the 64-bit targets,
      `struct.pack('<I', size)` on x86. */
  function SizeConstant(size: nat, arch: Arch): (r: seq<byte>)
    requires size < Pow256(WordSize(arch))
    ensures |r| == WordSize(arch)
    ensures FromLE(r) == size
  {
    FromLEOfLE(size, WordSize(arch));
    LE(size, WordSize(arch))
  }

  /** The size constant follows the padded blob, so the word at offset
      `len(aligned)` of the combined block decodes to the original length. */
  lemma {:induction false} SizeAfterAligned(data: seq<byte>, alignment: nat, arch: Arch)
    requires alignment > 0 && |data| < Pow256(WordSize(arch))
    ensures var aligned := AlignData(data, alignment);
      ReadLE(aligned + SizeConstant(|data|, arch), |aligned|, WordSize(arch)) == |data|
  {
    var aligned := AlignData(data, alignment);
    var c := SizeConstant(|data|, arch);
    assert (aligned + c)[|aligned|..|aligned| + WordSize(arch)] == c;
  }
}
