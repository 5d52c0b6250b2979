/** What is written field by field, with the buffer growing in between, is read back field by field. */
module BuffersTheorems {
  import opened Basics
  import opened Buffers

  datatype Field = Int(v: int32) | Byte(b: byte) | Raw(data: seq<byte>) | Str(text: seq<byte>)

  function Encode(f: Field): seq<byte> {
    match f
    case Int(v) => LittleEndian(Wrap32(v))
    case Byte(b) => [b]
    case Raw(data) => data
    case Str(text) => LittleEndian(Wrap32(|text| + 1)) + (text + [0])
  }

  function EncodeAll(fs: seq<Field>): seq<byte> {
    if fs == [] then [] else EncodeAll(fs[..|fs| - 1]) + Encode(fs[|fs| - 1])
  }

  function Write(b: Buf, f: Field): (r: (Code, Buf))
    requires WellFormed(b)
    ensures WellFormed(r.1)
  {
    match f
    case Int(v) => Put(b, LittleEndian(Wrap32(v)))
    case Byte(v) => Put(b, [v])
    case Raw(data) => Put(b, data)
    case Str(text) => PutString(b, text)
  }

  // ---------- one write ----------

  lemma {:induction false} OverwriteTwice(s: seq<byte>, at: nat, first: seq<byte>, second: seq<byte>)
    requires at + |first| + |second| <= |s|
    ensures Overwrite(Overwrite(s, at, first), at + |first|, second) == Overwrite(s, at, first + second)
  {
  }

  /** A write succeeds exactly when the whole field fits, and then the field stands at the old offset. */
  lemma {:induction false} WriteIsPut(b: Buf, f: Field)
    requires WellFormed(b)
    ensures var fits := b.offset + |Encode(f)| <= b.size;
            && (Write(b, f).0 == Success <==> fits)
            && (fits ==> Write(b, f) == Put(b, Encode(f)))
  {
    if f.Str? && b.offset + |Encode(f)| <= b.size {
      OverwriteTwice(b.bytes, b.offset, LittleEndian(Wrap32(|f.text| + 1)), f.text + [0]);
    }
  }

  /**
   * A refused write leaves everything as it was, but for a string whose length field still fits: that has been
   * written, and the offset moved past it.
   */
  lemma {:induction false} RefusedWrite(b: Buf, f: Field)
    requires WellFormed(b) && Write(b, f).0 != Success
    ensures Write(b, f).0 == OutOfRange
    ensures Write(b, f).1 == b <==> !(f.Str? && b.offset + 4 <= b.size)
    ensures f.Str? && b.offset + 4 <= b.size ==>
              && Write(b, f).1.offset == b.offset + 4
              && Write(b, f).1.bytes == Overwrite(b.bytes, b.offset, LittleEndian(Wrap32(|f.text| + 1)))
  {
  }

  // ---------- moving and resizing ----------

  /** The offset can be set to any place in use, and back to a block just written, to read it and go on behind it. */
  lemma {:induction false} OffsetGoesBack(b: Buf, data: seq<byte>)
    requires WellFormed(b) && data != [] && Put(b, data).0 == Success
    ensures var after := Put(b, data).1;
            var back := SetOffset(after, b.offset);
            && back.0 == Success && Get(back.1, |data|) == (Got(data), after)
            && forall k :: 0 <= k < b.offset ==> SetOffset(after, k) == (Success, after.(offset := k))
  {
    assert Overwrite(b.bytes, b.offset, data)[b.offset..b.offset + |data|] == data;
  }

  /** Setting the offset succeeds exactly inside the bytes in use; a block is read from there, or nothing changed. */
  lemma {:induction false} OffsetSetExactly(b: Buf, offset: int, n: nat)
    requires WellFormed(b)
    ensures var (code, c) := SetOffset(b, offset);
            if 0 <= offset < b.size then
              && code == Success && WellFormed(c)
              && (offset + n <= b.size ==> Get(c, n).0 == Got(b.bytes[offset..offset + n]))
              && (offset + n > b.size ==> Get(c, n) == (NotGot(OutOfRange), c))
            else code == InvalidParameter && c == b
  {
  }

  /** The fixed buffer takes any size its memory has; from then on exactly what fits that size can be written. */
  lemma {:induction false} ResizeDecides(b: Buf, size: int, data: seq<byte>)
    requires WellFormed(b)
    ensures var (code, c) := Resize(b, size);
            if 0 <= size <= |b.bytes| then
              && code == Success && WellFormed(c) && c.bytes == b.bytes && c.offset == b.offset
              && (Put(c, data).0 == Success <==> b.offset + |data| <= size)
            else code == (if size < 0 then InvalidParameter else NotEnoughBuffer) && c == b
  {
  }

  /**
   * The growing buffer takes any size that is not negative: what was in use and still fits stays where it was, and so
   * does the offset; told to stay, a buffer with enough memory keeps all of its bytes.
   */
  lemma {:induction false} RenewKeeps(b: Buf, size: int, stay: bool, unset: seq<byte>, k: nat)
    requires WellFormed(b) && size < TWO_TO_THE_31 && (size >= 0 ==> |unset| == size)
    ensures var (code, c) := Renew(b, size, stay, unset);
            if size < 0 then code == InvalidParameter && c == b
            else
              && code == Success && c.size == size && c.offset == b.offset
              && (k < size && k < b.size ==> c.bytes[k] == b.bytes[k])
              && if 0 < size <= |b.bytes| && stay then c.bytes == b.bytes else |c.bytes| == size
  {
  }

  /** A block is read exactly if it is inside the bytes in use; why not is told, and nothing changes then. */
  lemma {:induction false} RefusedRead(b: Buf, n: int)
    requires WellFormed(b)
    ensures Get(b, n).0.Got? <==> 0 <= n && b.offset + n <= b.size
    ensures !Get(b, n).0.Got? ==> Get(b, n) == (NotGot(if n < 0 then InvalidParameter else OutOfRange), b)
  {
  }

  // ---------- writing with the buffer growing in between ----------

  /** "unset" is what the new memory held. */
  datatype Op = WriteField(f: Field) | SetSize(size: nat, stay: bool, unset: seq<byte>)

  /** A write succeeds, and a new size does not cut off what has been written. */
  predicate Succeeds(b: Buf, op: Op)
    requires WellFormed(b)
  {
    match op
    case WriteField(f) => Write(b, f).0 == Success
    case SetSize(size, _, unset) => b.offset <= b.size && b.offset <= size < TWO_TO_THE_31 && |unset| == size
  }

  function Do(b: Buf, op: Op): (r: Buf)
    requires WellFormed(b)
    ensures WellFormed(r)
  {
    match op
    case WriteField(f) => Write(b, f).1
    case SetSize(size, stay, unset) =>
      if size < TWO_TO_THE_31 && |unset| == size then Renew(b, size, stay, unset).1 else b
  }

  function DoAll(b: Buf, ops: seq<Op>): (r: Buf)
    requires WellFormed(b)
    ensures WellFormed(r)
  {
    if ops == [] then b else Do(DoAll(b, ops[..|ops| - 1]), ops[|ops| - 1])
  }

  predicate AllSucceed(b: Buf, ops: seq<Op>)
    requires WellFormed(b)
  {
    if ops == [] then true
    else AllSucceed(b, ops[..|ops| - 1]) && Succeeds(DoAll(b, ops[..|ops| - 1]), ops[|ops| - 1])
  }

  function Fields(ops: seq<Op>): seq<Field> {
    if ops == [] then []
    else
      var last := ops[|ops| - 1];
      Fields(ops[..|ops| - 1]) + if last.WriteField? then [last.f] else []
  }

  /** The fields stand one after the other in front of the offset, and what was there before them still is. */
  predicate Holds(before: Buf, after: Buf, written: seq<byte>) {
    && after.offset == before.offset + |written| <= |after.bytes| && before.offset <= |before.bytes|
    && after.bytes[..after.offset] == before.bytes[..before.offset] + written
  }

  lemma {:induction false} DoKeeps(before: Buf, b: Buf, op: Op, written: seq<byte>)
    requires WellFormed(b) && Succeeds(b, op) && Holds(before, b, written)
    ensures Holds(before, Do(b, op), written + (if op.WriteField? then Encode(op.f) else []))
  {
    match op
    case WriteField(f) =>
      WriteIsPut(b, f);
      var after := Do(b, op);
      assert after.bytes[..after.offset] == b.bytes[..b.offset] + Encode(f);
      assert before.bytes[..before.offset] + written + Encode(f) ==
             before.bytes[..before.offset] + (written + Encode(f));
    case SetSize(size, stay, unset) =>
      assert written + [] == written;
      var after := Do(b, op);
      assert after.bytes[..after.offset] == b.bytes[..b.offset];
  }

  /** Whatever is written and however the buffer grows meanwhile, all of it stays. */
  lemma {:induction false} WrittenStays(b: Buf, ops: seq<Op>)
    requires WellFormed(b) && b.offset <= |b.bytes| && AllSucceed(b, ops)
    ensures Holds(b, DoAll(b, ops), EncodeAll(Fields(ops)))
  {
    if ops == [] {
      assert b.bytes[..b.offset] + [] == b.bytes[..b.offset];
    } else {
      var n := |ops| - 1;
      WrittenStays(b, ops[..n]);
      DoKeeps(b, DoAll(b, ops[..n]), ops[n], EncodeAll(Fields(ops[..n])));
      EncodeAllMore(Fields(ops[..n]), ops[n]);
    }
  }

  lemma {:induction false} EncodeAllMore(fs: seq<Field>, op: Op)
    ensures EncodeAll(fs + (if op.WriteField? then [op.f] else [])) ==
            EncodeAll(fs) + (if op.WriteField? then Encode(op.f) else [])
  {
    if op.WriteField? {
      assert (fs + [op.f])[..|fs|] == fs;
    } else {
      assert fs + [] == fs && EncodeAll(fs) + [] == EncodeAll(fs);
    }
  }

  // ---------- reading ----------

  datatype Value = Number(v: int32) | Bytes(data: seq<byte>)

  /** A byte and a block are read as blocks; a string is handed out with its NUL. */
  function ValueOf(f: Field): Value {
    match f
    case Int(v) => Number(v)
    case Byte(b) => Bytes([b])
    case Raw(data) => Bytes(data)
    case Str(text) => Bytes(text + [0])
  }

  datatype Shape = IntShape | BlockShape(n: nat) | StringShape

  function ShapeOf(f: Field): Shape {
    match f
    case Int(_) => IntShape
    case Byte(_) => BlockShape(1)
    case Raw(data) => BlockShape(|data|)
    case Str(_) => StringShape
  }

  function Read(b: Buf, shape: Shape): (r: (Option<Value>, Buf))
    requires WellFormed(b)
    ensures WellFormed(r.1)
  {
    match shape
    case IntShape => var g := GetInt(b); (if g.0.Got? then Some(Number(g.0.value)) else None, g.1)
    case BlockShape(n) => var g := Get(b, n); (if g.0.Got? then Some(Bytes(g.0.value)) else None, g.1)
    case StringShape => var g := GetString(b); (if g.0.Got? then Some(Bytes(g.0.value)) else None, g.1)
  }

  /** Reads one value after the other. */
  function ReadAll(b: Buf, fs: seq<Field>): (r: (seq<Option<Value>>, Buf))
    requires WellFormed(b)
    ensures WellFormed(r.1)
  {
    if fs == [] then ([], b)
    else
      var before := ReadAll(b, fs[..|fs| - 1]);
      var last := Read(before.1, ShapeOf(fs[|fs| - 1]));
      (before.0 + [last.0], last.1)
  }

  predicate StandsAt(data: seq<byte>, bytes: seq<byte>, at: nat) {
    at + |data| <= |bytes| && bytes[at..at + |data|] == data
  }

  lemma {:induction false} StandsInParts(head: seq<byte>, tail: seq<byte>, data: seq<byte>, bytes: seq<byte>, at: nat)
    requires data == head + tail && StandsAt(data, bytes, at)
    ensures StandsAt(head, bytes, at) && StandsAt(tail, bytes, at + |head|)
  {
    assert bytes[at..at + |head|] == bytes[at..at + |data|][..|head|];
    assert bytes[at + |head|..at + |head| + |tail|] == bytes[at..at + |data|][|head|..];
  }

  lemma {:induction false} ReadBlock(b: Buf, data: seq<byte>)
    requires WellFormed(b) && b.offset + |data| <= b.size && StandsAt(data, b.bytes, b.offset)
    ensures Get(b, |data|) == (Got(data), b.(offset := b.offset + |data|))
  {
  }

  lemma {:induction false} ReadInt(b: Buf, v: int32)
    requires WellFormed(b) && b.offset + 4 <= b.size && StandsAt(LittleEndian(Wrap32(v)), b.bytes, b.offset)
    ensures GetInt(b) == (Got(v), b.(offset := b.offset + 4))
  {
    ReadBlock(b, LittleEndian(Wrap32(v)));
    LittleEndianInverse(Wrap32(v));
  }

  lemma {:induction false} LengthBack(n: nat)
    requires n < TWO_TO_THE_31
    ensures Signed32(FromLittleEndian(LittleEndian(Wrap32(n)))) == n
  {
    LittleEndianInverse(Wrap32(n));
  }

  lemma {:induction false} ReadString(b: Buf, block: seq<byte>)
    requires WellFormed(b) && b.offset + 4 + |block| <= b.size
    requires StandsAt(LittleEndian(Wrap32(|block|)), b.bytes, b.offset) && StandsAt(block, b.bytes, b.offset + 4)
    ensures GetString(b) == (Got(block), b.(offset := b.offset + 4 + |block|))
  {
    LengthBack(|block|);
    assert StringLength(b) == |block|;
    ReadBlock(b.(offset := b.offset + 4), block);
  }

  /** Where the reader stands after a text. */
  function OffsetAfterText(b: Buf): int
    requires WellFormed(b)
  {
    var g := GetString(b);
    if g.0.Wild? then g.0.offset else g.1.offset
  }

  /**
   * A text is handed out exactly if it fits or its length field is 2^31 or more; in the second case, exactly, the
   * reader does not stay inside the buffer behind the field: its offset goes back, perhaps before the buffer.
   */
  lemma {:induction false} TextStaysInsideExactly(b: Buf)
    requires WellFormed(b) && b.offset + 4 <= b.size
    ensures GetString(b).0.Got? <==> b.offset + 4 + LengthField(b) <= b.size
    ensures GetString(b).0.Wild? <==> LengthField(b) >= TWO_TO_THE_31
    ensures b.offset + 4 <= OffsetAfterText(b) <= b.size <==> LengthField(b) < TWO_TO_THE_31
    ensures OffsetAfterText(b) < 0 <==> TWO_TO_THE_31 <= LengthField(b) < TWO_TO_THE_32 - 4 - b.offset
  {
  }

  /** Four bytes are enough: the reader is sent before the buffer. */
  lemma {:induction false} TextRunsWild()
    ensures var b := Buf([0, 0, 0, 0x80], 4, 0);
            WellFormed(b) && GetString(b).0 == Wild(TWO_TO_THE_31, 4 - TWO_TO_THE_31) && OffsetAfterText(b) < 0
  {
    var b := Buf([0, 0, 0, 0x80], 4, 0);
    assert b.bytes[0..4] == b.bytes;
  }

  lemma {:induction false} ReadOne(b: Buf, f: Field, enc: seq<byte>)
    requires enc == Encode(f)
    requires WellFormed(b) && b.offset + |enc| <= b.size && StandsAt(enc, b.bytes, b.offset)
    ensures Read(b, ShapeOf(f)) == (Some(ValueOf(f)), b.(offset := b.offset + |enc|))
  {
    match f
    case Int(v) => ReadInt(b, v);
    case Byte(v) => ReadBlock(b, [v]);
    case Raw(data) => ReadBlock(b, data);
    case Str(text) => ReadParts(b, LittleEndian(Wrap32(|text| + 1)), text + [0], enc);
  }

  lemma {:induction false} ReadParts(b: Buf, length: seq<byte>, block: seq<byte>, enc: seq<byte>)
    requires enc == length + block && length == LittleEndian(Wrap32(|block|))
    requires WellFormed(b) && b.offset + |enc| <= b.size && StandsAt(enc, b.bytes, b.offset)
    ensures GetString(b) == (Got(block), b.(offset := b.offset + |enc|))
  {
    StandsInParts(length, block, enc, b.bytes, b.offset);
    ReadString(b, block);
  }

  function Found(fs: seq<Field>): (r: seq<Option<Value>>)
    ensures |r| == |fs| && forall i :: 0 <= i < |r| ==> r[i] == Some(ValueOf(fs[i]))
  {
    seq(|fs|, i requires 0 <= i < |fs| => Some(ValueOf(fs[i])))
  }

  lemma {:induction false} FoundMore(fs: seq<Field>)
    requires fs != []
    ensures Found(fs) == Found(fs[..|fs| - 1]) + [Some(ValueOf(fs[|fs| - 1]))]
  {
  }

  /** All values have been found, and the offset is right behind them. */
  predicate AllRead(b: Buf, fs: seq<Field>, enc: seq<byte>)
    requires WellFormed(b)
  {
    ReadAll(b, fs) == (Found(fs), b.(offset := b.offset + |enc|))
  }

  lemma {:induction false} ReadMore(b: Buf, fs: seq<Field>, init: seq<Field>, last: Field, head: seq<byte>,
                                    tail: seq<byte>, enc: seq<byte>)
    requires WellFormed(b) && fs == init + [last] && AllRead(b, init, head) && tail == Encode(last)
    requires |enc| == |head| + |tail| && b.offset + |enc| <= b.size && StandsAt(tail, b.bytes, b.offset + |head|)
    ensures AllRead(b, fs, enc)
  {
    ReadOne(b.(offset := b.offset + |head|), last, tail);
    FoundMore(fs);
    assert fs[..|fs| - 1] == init;
  }

  lemma {:induction false} EncodedSplit(fs: seq<Field>, enc: seq<byte>)
    returns (init: seq<Field>, last: Field, head: seq<byte>, tail: seq<byte>)
    requires fs != [] && enc == EncodeAll(fs)
    ensures fs == init + [last] && head == EncodeAll(init) && tail == Encode(last) && enc == head + tail
  {
    init, last := fs[..|fs| - 1], fs[|fs| - 1];
    head, tail := EncodeAll(init), Encode(last);
  }

  /** A reader that has the encoded fields before it gets all of them, and stops right behind them. */
  lemma {:induction false} ReadsBack(b: Buf, fs: seq<Field>, enc: seq<byte>)
    requires enc == EncodeAll(fs)
    requires WellFormed(b) && b.offset + |enc| <= b.size && StandsAt(enc, b.bytes, b.offset)
    ensures AllRead(b, fs, enc)
  {
    if fs != [] {
      var init, last, head, tail := EncodedSplit(fs, enc);
      StandsInParts(head, tail, enc, b.bytes, b.offset);
      ReadsBack(b, init, head);
      ReadMore(b, fs, init, last, head, tail, enc);
    }
  }

  /** The reader was given the bytes in front of the writer's offset. */
  predicate Given(reader: Buf, writer: Buf) {
    && writer.offset <= reader.size && writer.offset <= |reader.bytes| && writer.offset <= |writer.bytes|
    && reader.bytes[..writer.offset] == writer.bytes[..writer.offset]
  }

  lemma {:induction false} GivenStands(reader: Buf, before: Buf, after: Buf, written: seq<byte>)
    requires Given(reader, after) && Holds(before, after, written)
    ensures StandsAt(written, reader.bytes, before.offset)
  {
  }

  /** Fields written into a buffer, growing or not, come back from a reader that was given its bytes. */
  lemma {:induction false} RoundTrip(b: Buf, ops: seq<Op>, reader: Buf)
    requires WellFormed(b) && b.offset <= |b.bytes| && AllSucceed(b, ops)
    requires WellFormed(reader) && reader.offset == b.offset && Given(reader, DoAll(b, ops))
    ensures ReadAll(reader, Fields(ops)) == (Found(Fields(ops)), reader.(offset := DoAll(b, ops).offset))
  {
    WrittenStays(b, ops);
    GivenStands(reader, b, DoAll(b, ops), EncodeAll(Fields(ops)));
    ReadsBack(reader, Fields(ops), EncodeAll(Fields(ops)));
  }

  /** And after every single step the two offsets agree. */
  lemma {:induction false} OffsetsAgree(b: Buf, ops: seq<Op>, reader: Buf, k: nat)
    requires WellFormed(b) && b.offset <= |b.bytes| && AllSucceed(b, ops) && k <= |ops|
    requires WellFormed(reader) && reader.offset == b.offset && Given(reader, DoAll(b, ops))
    ensures ReadAll(reader, Fields(ops[..k])).1.offset == DoAll(b, ops[..k]).offset
  {
    PrefixSucceeds(b, ops, k);
    WrittenStays(b, ops);
    WrittenStays(b, ops[..k]);
    var early, late := EncodeAll(Fields(ops[..k])), EncodeAll(Fields(ops));
    FieldsPrefix(ops, k);
    GivenStands(reader, b, DoAll(b, ops), late);
    StandsPrefix(early, late, reader.bytes, b.offset);
    ReadsBack(reader, Fields(ops[..k]), early);
  }

  lemma {:induction false} StandsPrefix(early: seq<byte>, late: seq<byte>, bytes: seq<byte>, at: nat)
    requires early <= late && StandsAt(late, bytes, at)
    ensures StandsAt(early, bytes, at)
  {
  }

  lemma {:induction false} PrefixSucceeds(b: Buf, ops: seq<Op>, k: nat)
    requires WellFormed(b) && AllSucceed(b, ops) && k <= |ops|
    ensures AllSucceed(b, ops[..k])
  {
    if k == |ops| {
      assert ops[..k] == ops;
    } else {
      PrefixSucceeds(b, ops[..|ops| - 1], k);
      assert ops[..|ops| - 1][..k] == ops[..k];
    }
  }

  lemma {:induction false} FieldsPrefix(ops: seq<Op>, k: nat)
    requires k <= |ops|
    ensures EncodeAll(Fields(ops[..k])) <= EncodeAll(Fields(ops))
  {
    if k == |ops| {
      assert ops[..k] == ops;
    } else {
      var n := |ops| - 1;
      FieldsPrefix(ops[..n], k);
      assert ops[..n][..k] == ops[..k];
      EncodeAllMore(Fields(ops[..n]), ops[n]);
    }
  }
}
