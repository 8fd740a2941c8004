/** Byte sequences, little-endian integer fields, in-place patches and
    NUL-terminated strings: the vocabulary the three object-file encoders share.
    Every container is built by appending byte blocks and then patching
    fixed-width fields of blocks already built (`struct.pack_into`). */
module Bytes {

  newtype byte = x: int | 0 <= x < 256

  datatype Option<T> = None | Some(value: T)

  /** 256^w: one more than the largest value a w-byte field holds. */
  function Pow256(w: nat): (p: nat)
    ensures p >= 1
  {
    if w == 0 then 1 else 256 * Pow256(w - 1)
  }

  /** The field bounds the encoders meet: `B`, `H`, `I` and `Q` fields. */
  lemma {:induction false} Pow256Values()
    ensures Pow256(1) == 0x100
    ensures Pow256(2) == 0x1_0000
    ensures Pow256(4) == 0x1_0000_0000
    ensures Pow256(8) == 0x1_0000_0000_0000_0000
  {
  }

  /** The w low-order bytes of v, least significant first: what
      `struct.pack('<B' | '<H' | '<I' | '<Q', v)` writes for a v that fits.
      (struct.pack refuses a v that does not fit; the encoders' preconditions
      exclude that case.) */
  function LE(v: nat, w: nat): (r: seq<byte>)
    ensures |r| == w
    decreases w
  {
    if w == 0 then [] else [(v % 256) as byte] + LE(v / 256, w - 1)
  }

  /** The unsigned little-endian integer a byte string denotes: `struct.unpack`. */
  function FromLE(bs: seq<byte>): nat
  {
    if |bs| == 0 then 0 else bs[0] as nat + 256 * FromLE(bs[1..])
  }

  /** Decoding an encoded field gives back the value it was packed from. */
  lemma {:induction false} FromLEOfLE(v: nat, w: nat)
    requires v < Pow256(w)
    ensures FromLE(LE(v, w)) == v
  {
    if w > 0 {
      assert LE(v, w)[1..] == LE(v / 256, w - 1);
      FromLEOfLE(v / 256, w - 1);
    }
  }

  /** Every byte string of width w is the encoding of exactly one value that fits w bytes. */
  lemma {:induction false} LEOfFromLE(bs: seq<byte>)
    ensures FromLE(bs) < Pow256(|bs|)
    ensures LE(FromLE(bs), |bs|) == bs
  {
    if |bs| > 0 {
      LEOfFromLE(bs[1..]);
      var v := FromLE(bs);
      assert v % 256 == bs[0] as nat && v / 256 == FromLE(bs[1..]);
      assert LE(v, |bs|) == [bs[0]] + bs[1..];
    }
  }

  /** The unsigned little-endian field of width w at byte off of buf. */
  function ReadLE(buf: seq<byte>, off: nat, w: nat): nat
    requires off + w <= |buf|
  {
    FromLE(buf[off..off + w])
  }

  /** `struct.pack_into('<…', buf, off, v)`: overwrite the w bytes at off with v. */
  function PokeLE(buf: seq<byte>, off: nat, w: nat, v: nat): (r: seq<byte>)
    requires off + w <= |buf|
    requires v < Pow256(w)
    ensures |r| == |buf|
    ensures r[..off] == buf[..off] && r[off + w..] == buf[off + w..]
    ensures ReadLE(r, off, w) == v
  {
    assert (buf[..off] + LE(v, w) + buf[off + w..])[off..off + w] == LE(v, w);
    FromLEOfLE(v, w);
    buf[..off] + LE(v, w) + buf[off + w..]
  }

  /** A patch that lies inside the left part of a concatenation leaves the right part alone. */
  lemma {:induction false} PokeLeft(a: seq<byte>, b: seq<byte>, off: nat, w: nat, v: nat)
    requires off + w <= |a| && v < Pow256(w)
    ensures PokeLE(a + b, off, w, v) == PokeLE(a, off, w, v) + b
  {
    assert (a + b)[..off] == a[..off];
    assert (a + b)[off + w..] == a[off + w..] + b;
  }

  /** A patch that lies inside the right part of a concatenation leaves the left part alone. */
  lemma {:induction false} PokeRight(a: seq<byte>, b: seq<byte>, off: nat, w: nat, v: nat)
    requires off + w <= |b| && v < Pow256(w)
    ensures PokeLE(a + b, |a| + off, w, v) == a + PokeLE(b, off, w, v)
  {
    var x := LE(v, w);
    var ab := a + b;
    assert ab[..|a| + off] == a + b[..off];
    assert ab[|a| + off + w..] == b[off + w..];
    calc {
      PokeLE(ab, |a| + off, w, v);
      (a + b[..off]) + x + b[off + w..];
      a + (b[..off] + x + b[off + w..]);
    }
  }
  /** The same, for a buffer and position given whole. */
  lemma {:induction false} PokeAfter(buf: seq<byte>, at: nat, a: seq<byte>, b: seq<byte>, off: nat, w: nat, v: nat)
    requires buf == a + b && at == |a| + off && off + w <= |b| && v < Pow256(w)
    ensures PokeLE(buf, at, w, v) == a + PokeLE(b, off, w, v)
  {
    PokeRight(a, b, off, w, v);
  }


  /** Reading a field through a surrounding buffer reads the same bytes. */
  lemma {:induction false} ReadInside(pre: seq<byte>, mid: seq<byte>, post: seq<byte>, off: nat, w: nat)
    requires off + w <= |mid|
    ensures ReadLE(pre + mid + post, |pre| + off, w) == ReadLE(mid, off, w)
  {
    assert (pre + mid + post)[|pre| + off..|pre| + off + w] == mid[off..off + w];
  }

  /** A word read inside the middle part of a buffer reads the same in the whole buffer. */
  lemma {:induction false} ReadWithin(buf: seq<byte>, pre: seq<byte>, mid: seq<byte>, post: seq<byte>, off: nat, w: nat, v: nat)
    requires buf == pre + mid + post && off + w <= |mid| && ReadLE(mid, off, w) == v
    ensures |pre| + off + w <= |buf| && ReadLE(buf, |pre| + off, w) == v
  {
    ReadInside(pre, mid, post, off, w);
  }

  /** A block found at offset o of the middle part of a buffer is followed there
      by the rest of the buffer. */
  lemma {:induction false} SliceFrom(pre: seq<byte>, mid: seq<byte>, post: seq<byte>, o: nat, blk: seq<byte>)
    requires o + |blk| <= |mid| && mid[o..o + |blk|] == blk
    ensures var buf := pre + mid + post;
      buf[|pre| + o..] == blk + buf[|pre| + o + |blk|..]
  {
    var buf := pre + mid + post;
    assert buf[|pre| + o..|pre| + o + |blk|] == blk;
    assert buf[|pre| + o..] == buf[|pre| + o..|pre| + o + |blk|] + buf[|pre| + o + |blk|..];
  }

  /** A block found at offset o of the middle part of a buffer is found there
      in the whole buffer. */
  lemma {:induction false} SliceAt(pre: seq<byte>, mid: seq<byte>, post: seq<byte>, o: nat, blk: seq<byte>)
    requires o + |blk| <= |mid| && mid[o..o + |blk|] == blk
    ensures |pre| + o + |blk| <= |pre + mid + post|
    ensures (pre + mid + post)[|pre| + o..|pre| + o + |blk|] == blk
  {
    var buf := pre + mid + post;
    forall i | 0 <= i < |blk|
      ensures buf[|pre| + o..|pre| + o + |blk|][i] == blk[i]
    {
      assert buf[|pre| + o + i] == mid[o + i];
      assert mid[o..o + |blk|][i] == mid[o + i];
    }
  }

  /** The two halves of a slice that holds a concatenation. */
  lemma {:induction false} SliceSplit(buf: seq<byte>, off: nat, a: seq<byte>, b: seq<byte>)
    requires off + |a| + |b| <= |buf| && buf[off..off + |a| + |b|] == a + b
    ensures buf[off..off + |a|] == a
    ensures buf[off + |a|..off + |a| + |b|] == b
    ensures buf[off..] == a + buf[off + |a|..]
  {
    assert buf[off..off + |a|] == (a + b)[..|a|];
    assert buf[off + |a|..off + |a| + |b|] == (a + b)[|a|..];
  }

  lemma {:induction false} SuffixStep<T>(s: seq<T>, k: nat)
    requires k < |s|
    ensures [s[k]] + s[k + 1..] == s[k..]
  {
  }

  /** A slice of a block found inside a buffer is the same slice of the buffer. */
  lemma {:induction false} SliceWithin(buf: seq<byte>, off: nat, t: seq<byte>, i: nat, j: nat)
    requires off + |t| <= |buf| && buf[off..off + |t|] == t && i <= j <= |t|
    ensures buf[off + i..off + j] == t[i..j]
  {
    forall m | 0 <= m < j - i
      ensures buf[off + i..off + j][m] == t[i..j][m]
    {
      assert buf[off + i + m] == buf[off..off + |t|][i + m];
    }
  }

  /** Regrouping a buffer around a block that sits in the middle part. */
  lemma {:induction false} Regroup3(pre: seq<byte>, a: seq<byte>, b: seq<byte>, c: seq<byte>, post: seq<byte>)
    ensures pre + (a + b + c) + post == (pre + a) + b + (c + post)
  {
  }

  /** Concatenation is associative. */
  lemma {:induction false} Assoc(a: seq<byte>, b: seq<byte>, c: seq<byte>)
    ensures a + (b + c) == a + b + c
  {
  }

  /** `b'\x00' * n`. */
  function Zeros(n: nat): (r: seq<byte>)
    ensures |r| == n
  {
    seq(n, _ => 0)
  }

  /** `bytes.ljust(n, b'\x00')[:n]`, which is what a `'<Ns'` struct field stores. */
  function PadTo(s: seq<byte>, n: nat): (r: seq<byte>)
    ensures |r| == n
  {
    if n <= |s| then s[..n] else s + Zeros(n - |s|)
  }

  // ---------------------------------------------------------------------
  // Running offsets over a sequence of appended blocks
  // ---------------------------------------------------------------------

  /** Sum of the block lengths. */
  function TotalLen(blocks: seq<seq<byte>>): nat
  {
    if |blocks| == 0 then 0 else TotalLen(blocks[..|blocks| - 1]) + |blocks[|blocks| - 1]|
  }

  /** The blocks appended in order (`for s in sections: obj_file += s`). */
  function Concat(blocks: seq<seq<byte>>): (r: seq<byte>)
  {
    if |blocks| == 0 then [] else Concat(blocks[..|blocks| - 1]) + blocks[|blocks| - 1]
  }

  lemma {:induction false} ConcatLength(blocks: seq<seq<byte>>)
    ensures |Concat(blocks)| == TotalLen(blocks)
  {
    if |blocks| > 0 {
      ConcatLength(blocks[..|blocks| - 1]);
    }
  }

  /** The running total before block i: where block i starts, relative to the first block. */
  function Start(blocks: seq<seq<byte>>, i: nat): nat
    requires i <= |blocks|
  {
    TotalLen(blocks[..i])
  }

  /** The running totals a `for` loop records while appending the blocks after `base`
      bytes of header (the `section_offsets` list of the ELF encoder). */
  function RunningOffsets(base: nat, blocks: seq<seq<byte>>): (offs: seq<nat>)
    ensures |offs| == |blocks|
  {
    seq(|blocks|, i requires 0 <= i < |blocks| => base + Start(blocks, i))
  }

  lemma {:induction false} StartNext(blocks: seq<seq<byte>>, i: nat)
    requires i < |blocks|
    ensures Start(blocks, i + 1) == Start(blocks, i) + |blocks[i]|
  {
    assert blocks[..i + 1][..i] == blocks[..i];
  }

  lemma {:induction false} ConcatPrefix(blocks: seq<seq<byte>>, i: nat)
    requires i <= |blocks|
    ensures |Concat(blocks[..i])| == Start(blocks, i)
    ensures Concat(blocks[..i]) <= Concat(blocks)
    decreases |blocks| - i
  {
    ConcatLength(blocks[..i]);
    if i < |blocks| {
      ConcatPrefix(blocks, i + 1);
      assert blocks[..i + 1][..i] == blocks[..i];
      assert Concat(blocks[..i + 1]) == Concat(blocks[..i]) + blocks[i];
    } else {
      assert blocks[..i] == blocks;
    }
  }

  /** Offset exactness of the append discipline: block i occupies the bytes from its
      running total onward. */
  lemma {:induction false} ConcatAt(blocks: seq<seq<byte>>, i: nat)
    requires i < |blocks|
    ensures Start(blocks, i) + |blocks[i]| <= |Concat(blocks)|
    ensures Concat(blocks)[Start(blocks, i)..Start(blocks, i) + |blocks[i]|] == blocks[i]
  {
    ConcatPrefix(blocks, i + 1);
    StartNext(blocks, i);
    assert blocks[..i + 1][..i] == blocks[..i];
    ConcatPrefix(blocks, i);
    var c := Concat(blocks[..i + 1]);
    assert c == Concat(blocks[..i]) + blocks[i];
    assert c[Start(blocks, i)..] == blocks[i];
    assert Concat(blocks)[..|c|] == c;
  }

  /** Appending blocks is appending the first to the rest. */
  lemma {:induction false} ConcatFront(blocks: seq<seq<byte>>)
    requires |blocks| > 0
    ensures Concat(blocks) == blocks[0] + Concat(blocks[1..])
  {
    var n := |blocks| - 1;
    if n > 0 {
      ConcatFront(blocks[..n]);
      assert blocks[..n][1..] == blocks[1..][..n - 1];
      assert blocks[..n][0] == blocks[0];
      assert blocks[1..][n - 1] == blocks[n];
    } else {
      assert blocks[1..] == [];
    }
  }

  /** Appending two runs of blocks is appending their concatenations. */
  lemma {:induction false} ConcatAppend(a: seq<seq<byte>>, b: seq<seq<byte>>)
    ensures Concat(a + b) == Concat(a) + Concat(b)
    decreases |b|
  {
    if |b| == 0 {
      assert a + b == a;
    } else {
      var n := |b| - 1;
      var ab := a + b;
      assert ab[..|ab| - 1] == a + b[..n];
      ConcatAppend(a, b[..n]);
      calc {
        Concat(ab);
        Concat(a + b[..n]) + b[n];
        Concat(a) + Concat(b[..n]) + b[n];
        Concat(a) + Concat(b);
      }
    }
  }

  lemma {:induction false} ConcatOne(x: seq<byte>)
    ensures Concat([x]) == x
  {
    assert [x][..0] == [];
  }

  lemma {:induction false} ConcatFour(blocks: seq<seq<byte>>)
    requires |blocks| == 4
    ensures Concat(blocks) == blocks[0] + blocks[1] + blocks[2] + blocks[3]
  {
    var b3 := blocks[..3];
    var b2 := b3[..2];
    var b1 := b2[..1];
    assert b1[..0] == [];
    assert Concat(b1) == blocks[0];
    assert Concat(b2) == blocks[0] + blocks[1];
    assert Concat(b3) == blocks[0] + blocks[1] + blocks[2];
  }

  /** Block k of a concatenation, with the blocks before and after it. */
  lemma {:induction false} ConcatSplit(blocks: seq<seq<byte>>, k: nat)
    requires k < |blocks|
    ensures Concat(blocks) == Concat(blocks[..k]) + blocks[k] + Concat(blocks[k + 1..])
  {
    var front := blocks[..k];
    var one := [blocks[k]];
    var back := blocks[k + 1..];
    SuffixStep(blocks, k);
    assert blocks == front + blocks[k..];
    ConcatAppend(front, one + back);
    ConcatAppend(one, back);
    ConcatOne(blocks[k]);
  }

  /** Overwriting a whole block in place. */
  lemma {:induction false} PokeWhole(b: seq<byte>, w: nat, v: nat)
    requires |b| == w && v < Pow256(w)
    ensures PokeLE(b, 0, w, v) == LE(v, w)
  {
    assert b[..0] == [] && b[w..] == [];
  }

  /** Patching the field that fills block i of a concatenation is the same as
      appending the blocks with block i replaced by the field's encoding. */
  lemma {:induction false} PokeConcat(blocks: seq<seq<byte>>, i: nat, w: nat, v: nat)
    requires i < |blocks| && |blocks[i]| == w && v < Pow256(w)
    ensures Start(blocks, i) + w <= |Concat(blocks)|
    ensures PokeLE(Concat(blocks), Start(blocks, i), w, v) == Concat(blocks[i := LE(v, w)])
  {
    ConcatAt(blocks, i);
    var n := |blocks| - 1;
    var init := blocks[..n];
    var blocks' := blocks[i := LE(v, w)];
    assert blocks'[..n] == if i == n then init else init[i := LE(v, w)];
    ConcatLength(init);
    StartNext(blocks, i);
    assert blocks[..i + 1][..i] == blocks[..i];
    if i == n {
      assert init == blocks[..i];
      PokeRight(Concat(init), blocks[n], 0, w, v);
      PokeWhole(blocks[n], w, v);
    } else {
      assert init[..i] == blocks[..i];
      PokeConcat(init, i, w, v);
      PokeLeft(Concat(init), blocks[n], Start(blocks, i), w, v);
    }
  }

  /** n records of the given size laid end to end: n * size, by repeated addition. */
  function Stride(n: nat, size: nat): nat
  {
    if n == 0 then 0 else Stride(n - 1, size) + size
  }

  lemma {:induction false} StrideProduct(n: nat, size: nat)
    ensures Stride(n, size) == n * size
  {
    if n > 0 {
      StrideProduct(n - 1, size);
      assert n * size == (n - 1) * size + size;
    }
  }

  /** In a table of equal-sized records, record i starts i records in. */
  lemma {:induction false} UniformStart(blocks: seq<seq<byte>>, size: nat, i: nat)
    requires forall j :: 0 <= j < |blocks| ==> |blocks[j]| == size
    requires i <= |blocks|
    ensures Start(blocks, i) == Stride(i, size)
  {
    if i > 0 {
      UniformStart(blocks, size, i - 1);
      StartNext(blocks, i - 1);
    }
  }

  lemma {:induction false} UniformLength(blocks: seq<seq<byte>>, size: nat)
    requires forall j :: 0 <= j < |blocks| ==> |blocks[j]| == size
    ensures |Concat(blocks)| == Stride(|blocks|, size)
  {
    ConcatLength(blocks);
    assert blocks[..|blocks|] == blocks;
    UniformStart(blocks, size, |blocks|);
  }

  // ---------------------------------------------------------------------
  // NUL-terminated strings
  // ---------------------------------------------------------------------

  predicate NoNul(s: seq<byte>)
  {
    forall i :: 0 <= i < |s| ==> s[i] != 0
  }

  /** The string a string-table offset denotes: the bytes from k up to the
      first NUL (or the end of the table). */
  function CStr(tab: seq<byte>, k: nat): (r: seq<byte>)
    ensures NoNul(r)
    decreases |tab| - k
  {
    if k >= |tab| || tab[k] == 0 then [] else [tab[k]] + CStr(tab, k + 1)
  }

  /** A NUL-terminated name stored at offset |pre| of a table reads back as that name. */
  lemma {:induction false} CStrAt(pre: seq<byte>, s: seq<byte>, post: seq<byte>)
    requires NoNul(s)
    ensures CStr(pre + (s + [0]) + post, |pre|) == s
    decreases |s|
  {
    var tab := pre + (s + [0]) + post;
    if |s| > 0 {
      assert tab == (pre + [s[0]]) + (s[1..] + [0]) + post;
      CStrAt(pre + [s[0]], s[1..], post);
    } else {
      assert tab[|pre|] == 0;
    }
  }

  /** Each name followed by its terminating NUL. */
  function Terminated(names: seq<seq<byte>>): (r: seq<seq<byte>>)
    ensures |r| == |names|
  {
    seq(|names|, i requires 0 <= i < |names| => names[i] + [0])
  }

  /** A string table: a leading NUL (the empty name at offset 0), then each
      name NUL-terminated. */
  function NameTable(names: seq<seq<byte>>): seq<byte>
  {
    [0] + Concat(Terminated(names))
  }

  /** Where name k starts in NameTable(names). */
  function NameOffset(names: seq<seq<byte>>, k: nat): nat
    requires k <= |names|
  {
    1 + Start(Terminated(names), k)
  }

  /** Offset 0 of a string table is the empty name. */
  lemma {:induction false} NameTableEmpty(names: seq<seq<byte>>)
    ensures CStr(NameTable(names), 0) == []
  {
    assert NameTable(names)[0] == 0;
  }

  /** Name k reads back from its offset. */
  lemma {:induction false} NameTableAt(names: seq<seq<byte>>, k: nat)
    requires k < |names| && NoNul(names[k])
    ensures CStr(NameTable(names), NameOffset(names, k)) == names[k]
  {
    TableAt([0], names, k);
  }

  /** In a table of NUL-terminated names after a header `head`, name k reads
      back from |head| plus the lengths of the terminated names before it. */
  lemma {:induction false} TableAt(head: seq<byte>, names: seq<seq<byte>>, k: nat)
    requires k < |names| && NoNul(names[k])
    ensures CStr(head + Concat(Terminated(names)), |head| + Start(Terminated(names), k)) == names[k]
  {
    var t := Terminated(names);
    var a := Concat(t[..k]);
    var b := Concat(t[k + 1..]);
    assert t[k] == names[k] + [0];
    ConcatSplit(t, k);
    ConcatLength(t[..k]);
    CStrAfter(head + Concat(t), |head| + Start(t, k), head, a, names[k], b);
  }

  /** A NUL-terminated name after a header and other bytes reads back. */
  lemma {:induction false} CStrAfter(tab: seq<byte>, at: nat, head: seq<byte>, a: seq<byte>, s: seq<byte>, b: seq<byte>)
    requires NoNul(s) && tab == head + (a + (s + [0]) + b) && at == |head| + |a|
    ensures CStr(tab, at) == s
  {
    var x := s + [0];
    Assoc(head, a + x, b);
    Assoc(head, a, x);
    CStrAt(head + a, s, b);
  }

  /** The offsets of consecutive names differ by the length of the first plus its NUL. */
  lemma {:induction false} NameOffsetNext(names: seq<seq<byte>>, k: nat)
    requires k < |names|
    ensures NameOffset(names, k + 1) == NameOffset(names, k) + |names[k]| + 1
  {
    StartNext(Terminated(names), k);
  }

  /** An inline name padded with NULs reads back as the name. */
  lemma {:induction false} CStrPadded(s: seq<byte>, n: nat)
    requires NoNul(s) && |s| <= n
    ensures CStr(PadTo(s, n), 0) == s
  {
    var p := PadTo(s, n);
    if |s| < n {
      assert p == [] + (s + [0]) + p[|s| + 1..];
      CStrAt([], s, p[|s| + 1..]);
    } else {
      assert p == s;
      CStrWhole(s, 0);
    }
  }

  /** A NUL-free string read from its start is the whole string. */
  lemma {:induction false} CStrWhole(s: seq<byte>, k: nat)
    requires NoNul(s) && k <= |s|
    ensures CStr(s, k) == s[k..]
    decreases |s| - k
  {
    if k < |s| {
      CStrWhole(s, k + 1);
    }
  }
}
