/** `struct.pack` and `struct.unpack` with a little-endian, unpadded ('<')
    format string. A format string becomes a `Shape`: one `Slot` per field,
    `Int(w)` for the integer codes (B = 1, H/h = 2, I = 4, Q = 8 bytes) and
    `Str(n)` for an `'ns'` byte-string field. */
module Layout {
  import opened Bytes

  datatype Slot = Int(width: nat) | Str(len: nat)

  /** A field value: an unsigned integer or a byte string. */
  datatype Val = N(n: nat) | S(s: seq<byte>)

  type Shape = seq<Slot>

  function SlotSize(sl: Slot): nat
  {
    match sl
    case Int(w) => w
    case Str(n) => n
  }

  /** The byte position of field k inside a packed record: the sizes of the
      fields before it. */
  function Offset(shape: Shape, k: nat): nat
    requires k <= |shape|
  {
    if k == 0 then 0 else Offset(shape, k - 1) + SlotSize(shape[k - 1])
  }

  /** `struct.calcsize`. */
  function Size(shape: Shape): nat
  {
    Offset(shape, |shape|)
  }

  lemma {:induction false} OffsetMono(shape: Shape, k: nat, m: nat)
    requires k <= m <= |shape|
    ensures Offset(shape, k) <= Offset(shape, m)
    decreases m
  {
    if k < m {
      OffsetMono(shape, k, m - 1);
    }
  }

  lemma {:induction false} OffsetBound(shape: Shape, k: nat)
    requires k < |shape|
    ensures Offset(shape, k) + SlotSize(shape[k]) <= Size(shape)
  {
    OffsetMono(shape, k + 1, |shape|);
  }

  /** The bytes one field contributes; a value of the wrong kind packs as zeros. */
  function EncodeSlot(sl: Slot, v: Val): (r: seq<byte>)
    ensures |r| == SlotSize(sl)
  {
    match sl
    case Int(w) => LE(if v.N? then v.n else 0, w)
    case Str(n) => PadTo(if v.S? then v.s else [], n)
  }

  function DecodeSlot(sl: Slot, bs: seq<byte>): Val
  {
    match sl
    case Int(_) => N(FromLE(bs))
    case Str(_) => S(bs)
  }

  /** What a field holds after a pack/unpack round trip: the integer its w
      low-order bytes denote, or the string padded or cut to its length. */
  function Normal(sl: Slot, v: Val): Val
  {
    match sl
    case Int(w) => N(FromLE(LE(if v.N? then v.n else 0, w)))
    case Str(n) => S(PadTo(if v.S? then v.s else [], n))
  }

  /** True when every value has the kind of its slot and fits in it. */
  predicate Conforms(sl: Slot, v: Val)
  {
    match sl
    case Int(w) => v.N? && v.n < Pow256(w)
    case Str(n) => v.S? && |v.s| == n
  }

  lemma {:induction false} NormalOfConforming(sl: Slot, v: Val)
    requires Conforms(sl, v)
    ensures Normal(sl, v) == v
  {
    match sl
    case Int(w) =>
      FromLEOfLE(v.n, w);
    case Str(n) =>
      assert v.s[..n] == v.s;
  }

  /** The bytes of each field, in order. */
  function Fields(shape: Shape, vals: seq<Val>): (blocks: seq<seq<byte>>)
    requires |shape| == |vals|
    ensures |blocks| == |shape|
    ensures forall i :: 0 <= i < |shape| ==> |blocks[i]| == SlotSize(shape[i])
  {
    seq(|shape|, i requires 0 <= i < |shape| => EncodeSlot(shape[i], vals[i]))
  }

  /** `struct.pack(fmt, *vals)`. */
  function Pack(shape: Shape, vals: seq<Val>): (r: seq<byte>)
    requires |shape| == |vals|
    ensures |r| == Size(shape)
  {
    var blocks := Fields(shape, vals);
    ConcatLength(blocks);
    assert blocks[..|blocks|] == blocks;
    StartOffset(shape, blocks, |shape|);
    Concat(blocks)
  }

  /** A one-field record is the field's bytes. */
  lemma {:induction false} PackOne(sl: Slot, v: Val)
    ensures Pack([sl], [v]) == EncodeSlot(sl, v)
  {
    ConcatOne(EncodeSlot(sl, v));
    assert Fields([sl], [v]) == [EncodeSlot(sl, v)];
  }

  /** A record is its first field's bytes followed by the rest. */
  lemma {:induction false} PackCons(sl: Slot, v: Val, shape: Shape, vals: seq<Val>)
    requires |shape| == |vals|
    ensures Pack([sl] + shape, [v] + vals) == EncodeSlot(sl, v) + Pack(shape, vals)
  {
    PackAppend([sl], [v], shape, vals);
    PackOne(sl, v);
  }

  /** A record is its first two fields' bytes followed by the rest. */
  lemma {:induction false} PackCons2(s1: Slot, v1: Val, s2: Slot, v2: Val, shape: Shape, vals: seq<Val>)
    requires |shape| == |vals|
    ensures Pack([s1, s2] + shape, [v1, v2] + vals) == EncodeSlot(s1, v1) + EncodeSlot(s2, v2) + Pack(shape, vals)
  {
    assert [s1, s2] + shape == [s1] + ([s2] + shape);
    assert [v1, v2] + vals == [v1] + ([v2] + vals);
    PackCons(s1, v1, [s2] + shape, [v2] + vals);
    PackCons(s2, v2, shape, vals);
  }

  /** Running totals over blocks with the slot sizes are the field offsets. */
  lemma {:induction false} StartOffset(shape: Shape, blocks: seq<seq<byte>>, k: nat)
    requires |blocks| == |shape| && k <= |shape|
    requires forall i :: 0 <= i < |shape| ==> |blocks[i]| == SlotSize(shape[i])
    ensures Start(blocks, k) == Offset(shape, k)
  {
    if k > 0 {
      StartOffset(shape, blocks, k - 1);
      StartNext(blocks, k - 1);
    }
  }

  /** Field i of the record at the start of bs. */
  function FieldAt(shape: Shape, bs: seq<byte>, i: nat): Val
    requires i < |shape| && Size(shape) <= |bs|
  {
    OffsetBound(shape, i);
    DecodeSlot(shape[i], bs[Offset(shape, i)..Offset(shape, i) + SlotSize(shape[i])])
  }

  /** `struct.unpack_from(fmt, bs)`: the fields of the record at the start of bs. */
  function Unpack(shape: Shape, bs: seq<byte>): (vals: seq<Val>)
    requires Size(shape) <= |bs|
    ensures |vals| == |shape|
  {
    seq(|shape|, i requires 0 <= i < |shape| => FieldAt(shape, bs, i))
  }

  /** `struct.unpack_from(fmt, buf, off)`, or None when the record runs past the end of buf. */
  function UnpackAt(shape: Shape, buf: seq<byte>, off: nat): Option<seq<Val>>
  {
    if off + Size(shape) <= |buf| then Some(Unpack(shape, buf[off..])) else None
  }

  lemma {:induction false} DecodeEncodeSlot(sl: Slot, v: Val)
    ensures DecodeSlot(sl, EncodeSlot(sl, v)) == Normal(sl, v)
  {

  }

  /** Field k of a packed record occupies the bytes from `Offset(shape, k)` on. */
  lemma {:induction false} PackAt(shape: Shape, vals: seq<Val>, k: nat)
    requires |shape| == |vals| && k < |shape|
    ensures Offset(shape, k) + SlotSize(shape[k]) <= |Pack(shape, vals)|
    ensures Pack(shape, vals)[Offset(shape, k)..Offset(shape, k) + SlotSize(shape[k])]
         == EncodeSlot(shape[k], vals[k])
  {
    var blocks := Fields(shape, vals);
    ConcatAt(blocks, k);
    StartOffset(shape, blocks, k);
  }

  /** One field of the struct round trip. */
  lemma {:induction false} UnpackPackField(shape: Shape, vals: seq<Val>, post: seq<byte>, i: nat)
    requires |shape| == |vals| && i < |shape|
    ensures Size(shape) <= |Pack(shape, vals) + post|
    ensures Unpack(shape, Pack(shape, vals) + post)[i] == Normal(shape[i], vals[i])
  {
    var p := Pack(shape, vals);
    PackAt(shape, vals, i);
    assert (p + post)[Offset(shape, i)..Offset(shape, i) + SlotSize(shape[i])]
        == p[Offset(shape, i)..Offset(shape, i) + SlotSize(shape[i])];
    FieldOfSlice(shape, p + post, i, EncodeSlot(shape[i], vals[i]));
    DecodeEncodeSlot(shape[i], vals[i]);
  }

  /** A field reads back as the slot decoding of the bytes at its offset. */
  lemma {:induction false} FieldOfSlice(shape: Shape, bs: seq<byte>, i: nat, enc: seq<byte>)
    requires i < |shape| && Offset(shape, i) + SlotSize(shape[i]) <= |bs| && Size(shape) <= |bs|
    requires bs[Offset(shape, i)..Offset(shape, i) + SlotSize(shape[i])] == enc
    ensures Unpack(shape, bs)[i] == DecodeSlot(shape[i], enc)
  {
    assert Unpack(shape, bs)[i] == FieldAt(shape, bs, i);
  }

  /** The struct round trip: unpacking a packed record, whatever follows it, gives
      each field's normalised value. */
  lemma {:induction false} UnpackPack(shape: Shape, vals: seq<Val>, post: seq<byte>)
    requires |shape| == |vals|
    ensures Size(shape) <= |Pack(shape, vals) + post|
    ensures forall i :: 0 <= i < |shape| ==>
      Unpack(shape, Pack(shape, vals) + post)[i] == Normal(shape[i], vals[i])
  {
    forall i | 0 <= i < |shape|
      ensures Unpack(shape, Pack(shape, vals) + post)[i] == Normal(shape[i], vals[i])
    {
      UnpackPackField(shape, vals, post, i);
    }
  }

  /** The struct round trip at an offset inside a larger buffer. */
  lemma {:induction false} UnpackAtPack(pre: seq<byte>, shape: Shape, vals: seq<Val>, post: seq<byte>)
    requires |shape| == |vals|
    ensures UnpackAt(shape, pre + Pack(shape, vals) + post, |pre|).Some?
    ensures forall i :: 0 <= i < |shape| ==>
      UnpackAt(shape, pre + Pack(shape, vals) + post, |pre|).value[i] == Normal(shape[i], vals[i])
  {
    var buf := pre + Pack(shape, vals) + post;
    assert buf[|pre|..] == Pack(shape, vals) + post;
    assert UnpackAt(shape, buf, |pre|) == Some(Unpack(shape, Pack(shape, vals) + post));
    UnpackPack(shape, vals, post);
  }

  /** `struct.pack_into` on one integer field of a packed record is the same as
      packing the record with that field's value replaced. */
  lemma {:induction false} PokeField(shape: Shape, vals: seq<Val>, k: nat, v: nat)
    requires |shape| == |vals| && k < |shape| && shape[k].Int? && v < Pow256(shape[k].width)
    ensures Offset(shape, k) + shape[k].width <= |Pack(shape, vals)|
    ensures PokeLE(Pack(shape, vals), Offset(shape, k), shape[k].width, v)
         == Pack(shape, vals[k := N(v)])
  {
    var blocks := Fields(shape, vals);
    var w := shape[k].width;
    StartOffset(shape, blocks, k);
    PokeConcat(blocks, k, w, v);
    assert Fields(shape, vals[k := N(v)]) == blocks[k := LE(v, w)];
  }

  /** Packing two formats one after the other is packing their concatenation. */
  lemma {:induction false} PackAppend(s1: Shape, v1: seq<Val>, s2: Shape, v2: seq<Val>)
    requires |s1| == |v1| && |s2| == |v2|
    ensures Pack(s1 + s2, v1 + v2) == Pack(s1, v1) + Pack(s2, v2)
  {
    var f := Fields(s1 + s2, v1 + v2);
    var f1 := Fields(s1, v1);
    var f2 := Fields(s2, v2);
    assert f == f1 + f2 by {
      forall i | 0 <= i < |f|
        ensures f[i] == (f1 + f2)[i]
      {
        if i < |s1| {
          assert (s1 + s2)[i] == s1[i] && (v1 + v2)[i] == v1[i];
        } else {
          assert (s1 + s2)[i] == s2[i - |s1|] && (v1 + v2)[i] == v2[i - |s1|];
        }
      }
    }
    ConcatAppend(f1, f2);
  }

  /** The integer in field i of an unpacked record (0 when there is none). */
  function Num(row: seq<Val>, i: nat): nat
  {
    if i < |row| && row[i].N? then row[i].n else 0
  }

  /** The bytes in field i of an unpacked record (none when there are none). */
  function Text(row: seq<Val>, i: nat): seq<byte>
  {
    if i < |row| && row[i].S? then row[i].s else []
  }

  /** True when every value has the kind of its slot and fits in it. */
  predicate AllConform(shape: Shape, vals: seq<Val>)
  {
    |vals| == |shape| && forall i :: 0 <= i < |shape| ==> Conforms(shape[i], vals[i])
  }

  /** A value that fits its field keeps a record conforming. */
  lemma {:induction false} ConformUpdate(shape: Shape, vals: seq<Val>, k: nat, v: Val)
    requires AllConform(shape, vals) && k < |shape| && Conforms(shape[k], v)
    ensures AllConform(shape, vals[k := v])
  {
  }

  /** `bs` is the record of values that fit their fields. */
  predicate Packed(bs: seq<byte>, shape: Shape, vals: seq<Val>)
  {
    AllConform(shape, vals) && bs == Pack(shape, vals)
  }

  /** The record a pack/unpack round trip gives back. */
  function NormalRow(shape: Shape, vals: seq<Val>): (r: seq<Val>)
    requires |vals| == |shape|
    ensures |r| == |shape|
  {
    seq(|shape|, i requires 0 <= i < |shape| => Normal(shape[i], vals[i]))
  }

  /** A record of fitting values is its own normal form. */
  lemma {:induction false} NormalRowConforming(shape: Shape, vals: seq<Val>)
    requires AllConform(shape, vals)
    ensures NormalRow(shape, vals) == vals
  {
    forall i | 0 <= i < |shape|
      ensures NormalRow(shape, vals)[i] == vals[i]
    {
      NormalOfConforming(shape[i], vals[i]);
    }
  }

  /** Unpacking a packed record, whatever follows it, gives its normal form. */
  lemma {:induction false} UnpackPackRow(shape: Shape, vals: seq<Val>, post: seq<byte>)
    requires |shape| == |vals|
    ensures Size(shape) <= |Pack(shape, vals) + post|
    ensures Unpack(shape, Pack(shape, vals) + post) == NormalRow(shape, vals)
  {
    UnpackPack(shape, vals, post);
  }

  /** A record whose first two fields are 32-bit words, followed by more
      bytes, starts with those two words. */
  lemma {:induction false} LeadingWords(shape: Shape, vals: seq<Val>, post: seq<byte>)
    requires AllConform(shape, vals) && |shape| >= 2 && shape[0] == Int(4) && shape[1] == Int(4)
    ensures var c := Pack(shape, vals) + post;
      |c| >= 8 && ReadLE(c, 0, 4) == Num(vals, 0) && ReadLE(c, 4, 4) == Num(vals, 1)
  {
    var c := Pack(shape, vals) + post;
    assert c == [] + Pack(shape, vals) + post;
    assert Conforms(shape[0], vals[0]) && Conforms(shape[1], vals[1]);
    PackedField(shape, vals, 0);
    PackedField(shape, vals, 1);
    assert Offset(shape, 0) == 0 && Offset(shape, 1) == 4;
    ReadWithin(c, [], Pack(shape, vals), post, 0, 4, vals[0].n);
    ReadWithin(c, [], Pack(shape, vals), post, 4, 4, vals[1].n);
  }

  /** An integer field of a packed record, read from the record alone. */
  lemma {:induction false} PackedField(shape: Shape, vals: seq<Val>, k: nat)
    requires |shape| == |vals| && k < |shape| && shape[k].Int?
    requires vals[k].N? && vals[k].n < Pow256(shape[k].width)
    ensures Offset(shape, k) + shape[k].width <= |Pack(shape, vals)|
    ensures ReadLE(Pack(shape, vals), Offset(shape, k), shape[k].width) == vals[k].n
  {
    PackAt(shape, vals, k);
    FromLEOfLE(vals[k].n, shape[k].width);
  }

  /** The same, for a record at byte at = |pre| of a larger buffer. */
  lemma {:induction false} UnpackAtPacked(buf: seq<byte>, at: nat, pre: seq<byte>, shape: Shape, vals: seq<Val>, post: seq<byte>)
    requires |shape| == |vals|
    requires buf == pre + Pack(shape, vals) + post && at == |pre|
    ensures UnpackAt(shape, buf, at) == Some(NormalRow(shape, vals))
  {
    assert buf[at..] == Pack(shape, vals) + post;
    UnpackPackRow(shape, vals, post);
  }

  /** Unpacking a packed record of fitting values gives the values back. */
  lemma {:induction false} UnpackAtConforming(buf: seq<byte>, at: nat, pre: seq<byte>, shape: Shape, vals: seq<Val>, post: seq<byte>)
    requires AllConform(shape, vals)
    requires buf == pre + Pack(shape, vals) + post && at == |pre|
    ensures UnpackAt(shape, buf, at) == Some(vals)
  {
    UnpackAtPacked(buf, at, pre, shape, vals, post);
    NormalRowConforming(shape, vals);
  }

  // ---------------------------------------------------------------------
  // Tables of records
  // ---------------------------------------------------------------------

  predicate RowsFit(shape: Shape, rows: seq<seq<Val>>)
  {
    forall i :: 0 <= i < |rows| ==> |rows[i]| == |shape|
  }

  function PackedRows(shape: Shape, rows: seq<seq<Val>>): (blocks: seq<seq<byte>>)
    requires RowsFit(shape, rows)
    ensures |blocks| == |rows|
    ensures forall i :: 0 <= i < |rows| ==> |blocks[i]| == Size(shape)
  {
    seq(|rows|, i requires 0 <= i < |rows| => Pack(shape, rows[i]))
  }

  /** A table of records of one shape, appended one after another (the ELF
      symbol and section-header tables, the COFF and Mach-O symbol tables). */
  function Records(shape: Shape, rows: seq<seq<Val>>): seq<byte>
    requires RowsFit(shape, rows)
  {
    Concat(PackedRows(shape, rows))
  }

  lemma {:induction false} RecordsLength(shape: Shape, rows: seq<seq<Val>>)
    requires RowsFit(shape, rows)
    ensures |Records(shape, rows)| == Stride(|rows|, Size(shape))
  {
    UniformLength(PackedRows(shape, rows), Size(shape));
  }

  /** The rows a table round trip gives back. */
  function NormalRows(shape: Shape, rows: seq<seq<Val>>): (r: seq<seq<Val>>)
    requires RowsFit(shape, rows)
    ensures |r| == |rows|
  {
    seq(|rows|, k requires 0 <= k < |rows| => NormalRow(shape, rows[k]))
  }

  lemma {:induction false} NormalRowsConforming(shape: Shape, rows: seq<seq<Val>>)
    requires forall k :: 0 <= k < |rows| ==> AllConform(shape, rows[k])
    ensures RowsFit(shape, rows)
    ensures NormalRows(shape, rows) == rows
  {
    forall k | 0 <= k < |rows|
      ensures NormalRows(shape, rows)[k] == rows[k]
    {
      NormalRowConforming(shape, rows[k]);
    }
  }

  /** Reading `count` records of one shape from byte off on, or None when the
      table runs past the end of the buffer. */
  function ReadTable(shape: Shape, buf: seq<byte>, off: nat, count: nat): Option<seq<seq<Val>>>
    decreases count
  {
    if count == 0 then Some([])
    else match UnpackAt(shape, buf, off)
      case None => None
      case Some(row) =>
        match ReadTable(shape, buf, off + Size(shape), count - 1)
        case None => None
        case Some(more) => Some([row] + more)
  }

  lemma {:induction false} ReadTableStep(shape: Shape, buf: seq<byte>, off: nat, count: nat, row: seq<Val>, more: seq<seq<Val>>)
    requires count > 0
    requires UnpackAt(shape, buf, off) == Some(row)
    requires ReadTable(shape, buf, off + Size(shape), count - 1) == Some(more)
    ensures ReadTable(shape, buf, off, count) == Some([row] + more)
  {
  }

  /** Reading records found one after another, each one record further on,
      gives them back. */
  lemma {:induction false} ReadTableOfRows(shape: Shape, buf: seq<byte>, at: nat, rows: seq<seq<Val>>)
    requires forall k :: 0 <= k < |rows| ==> UnpackAt(shape, buf, at + Stride(k, Size(shape))) == Some(rows[k])
    ensures ReadTable(shape, buf, at, |rows|) == Some(rows)
    decreases |rows|
  {
    if |rows| > 0 {
      var tail := rows[1..];
      var next := at + Size(shape);
      forall k | 0 <= k < |tail|
        ensures UnpackAt(shape, buf, next + Stride(k, Size(shape))) == Some(tail[k])
      {
        assert next + Stride(k, Size(shape)) == at + Stride(k + 1, Size(shape));
      }
      assert UnpackAt(shape, buf, at + Stride(0, Size(shape))) == Some(rows[0]);
      ReadTableOfRows(shape, buf, next, tail);
      ReadTableStep(shape, buf, at, |rows|, rows[0], tail);
      assert [rows[0]] + tail == rows;
    }
  }

  /** A table is the rows before row k, row k, and the rows after it. */
  lemma {:induction false} RecordsAround(shape: Shape, rows: seq<seq<Val>>, k: nat)
    requires RowsFit(shape, rows) && k < |rows|
    ensures Records(shape, rows)
         == Records(shape, rows[..k]) + Pack(shape, rows[k]) + Records(shape, rows[k + 1..])
    ensures |Records(shape, rows[..k])| == Stride(k, Size(shape))
  {
    var blocks := PackedRows(shape, rows);
    assert blocks[..k] == PackedRows(shape, rows[..k]);
    assert blocks[k + 1..] == PackedRows(shape, rows[k + 1..]);
    ConcatSplit(blocks, k);
    RecordsLength(shape, rows[..k]);
  }

  /** Row k of a table appended at byte |pre| sits k records in. */
  lemma {:induction false} RowInRecords(buf: seq<byte>, at: nat, pre: seq<byte>, shape: Shape, rows: seq<seq<Val>>, post: seq<byte>, k: nat)
    requires RowsFit(shape, rows) && k < |rows|
    requires buf == pre + Records(shape, rows) + post && at == |pre| + Stride(k, Size(shape))
    ensures UnpackAt(shape, buf, at) == Some(NormalRows(shape, rows)[k])
  {
    var before := Records(shape, rows[..k]);
    var after := Records(shape, rows[k + 1..]);
    RecordsAround(shape, rows, k);
    Regroup3(pre, before, Pack(shape, rows[k]), after, post);
    UnpackAtPacked(buf, at, pre + before, shape, rows[k], after + post);
  }

  /** Every row of a table appended at byte |pre| sits where its index says. */
  lemma {:induction false} RowsInRecords(buf: seq<byte>, pre: seq<byte>, shape: Shape, rows: seq<seq<Val>>, post: seq<byte>)
    requires RowsFit(shape, rows)
    requires buf == pre + Records(shape, rows) + post
    ensures forall k :: 0 <= k < |rows| ==>
      UnpackAt(shape, buf, |pre| + Stride(k, Size(shape))) == Some(NormalRows(shape, rows)[k])
  {
    forall k | 0 <= k < |rows|
      ensures UnpackAt(shape, buf, |pre| + Stride(k, Size(shape))) == Some(NormalRows(shape, rows)[k])
    {
      RowInRecords(buf, |pre| + Stride(k, Size(shape)), pre, shape, rows, post, k);
    }
  }

  /** The table round trip: reading back a table from where it was appended
      gives each row's normal form. */
  lemma {:induction false} ReadTableRecords(buf: seq<byte>, pre: seq<byte>, shape: Shape, rows: seq<seq<Val>>, post: seq<byte>)
    requires RowsFit(shape, rows)
    requires buf == pre + Records(shape, rows) + post
    ensures ReadTable(shape, buf, |pre|, |rows|) == Some(NormalRows(shape, rows))
  {
    RowsInRecords(buf, pre, shape, rows, post);
    ReadTableOfRows(shape, buf, |pre|, NormalRows(shape, rows));
  }
}
