/** The send and receive buffers: fields written one after the other and read back in the same order. */
module Buffers {
  import opened Basics

  datatype Code = Success | InvalidParameter | NotEnoughBuffer | OutOfRange

  // ---------- bytes of numbers, lowest first ----------

  function LittleEndian(w: uint32): (r: seq<byte>)
    ensures |r| == 4
  {
    [w % 0x100, w / 0x100 % 0x100, w / 0x1_0000 % 0x100, w / 0x100_0000]
  }

  function FromLittleEndian(s: seq<byte>): uint32
    requires |s| == 4
  {
    (s[0] as int) + 0x100 * (s[1] as int) + 0x1_0000 * (s[2] as int) + 0x100_0000 * (s[3] as int)
  }

  lemma {:induction false} LittleEndianInverse(w: uint32)
    ensures FromLittleEndian(LittleEndian(w)) == w
  {
    var a := w / 0x100;
    var b := a / 0x100;
    assert b == w / 0x1_0000 && b / 0x100 == w / 0x100_0000;
    assert w == 0x100 * a + w % 0x100 && a == 0x100 * b + a % 0x100 && b == 0x100 * (b / 0x100) + b % 0x100;
  }

  // ---------- what the buffers do ----------

  /** The memory a buffer has, how much of it is in use, and the offset of the next access. */
  datatype Buf = Buf(bytes: seq<byte>, size: nat, offset: nat)

  predicate WellFormed(b: Buf) {
    b.size <= |b.bytes| < TWO_TO_THE_31
  }

  function Overwrite(s: seq<byte>, at: nat, data: seq<byte>): (r: seq<byte>)
    requires at + |data| <= |s|
    ensures |r| == |s|
  {
    s[..at] + data + s[at + |data|..]
  }

  /** Writes a block, or refuses it as a whole. */
  function Put(b: Buf, data: seq<byte>): (r: (Code, Buf))
    requires WellFormed(b)
    ensures WellFormed(r.1)
  {
    if b.size < b.offset + |data| then (OutOfRange, b)
    else (Success, b.(bytes := Overwrite(b.bytes, b.offset, data), offset := b.offset + |data|))
  }

  /** Writes the length, counting the NUL, and then the text with its NUL; the two are refused one by one. */
  function PutString(b: Buf, text: seq<byte>): (r: (Code, Buf))
    requires WellFormed(b)
    ensures WellFormed(r.1)
  {
    var p := Put(b, LittleEndian(Wrap32(|text| + 1)));
    if p.0 != Success then p else Put(p.1, text + [0])
  }

  function SetOffset(b: Buf, offset: int): (Code, Buf) {
    if 0 > offset || b.size <= offset then (InvalidParameter, b) else (Success, b.(offset := offset))
  }

  /** A buffer on given memory only chooses how much of it to use. */
  function Resize(b: Buf, size: int): (Code, Buf) {
    if 0 > size then (InvalidParameter, b)
    else if size > |b.bytes| then (NotEnoughBuffer, b)
    else (Success, b.(size := size))
  }

  function Min(a: nat, b: nat): nat {
    if a < b then a else b
  }

  /**
   * A buffer on the heap moves to memory of the new size ("unset" is what that memory held), or stays if told to and
   * possible.
   */
  function Renew(b: Buf, size: int, stay: bool, unset: seq<byte>): (r: (Code, Buf))
    requires WellFormed(b) && (size >= 0 ==> |unset| == size)
    ensures size < TWO_TO_THE_31 ==> WellFormed(r.1)
  {
    if 0 > size then (InvalidParameter, b)
    else if size == 0 then (Success, Buf([], 0, b.offset))
    else if b.bytes != [] && stay && size <= |b.bytes| then (Success, b.(size := size))
    else
      var kept := Min(b.size, size);
      (Success, Buf(b.bytes[..kept] + unset[kept..], size, b.offset))
  }

  /**
   * A block that has been read, or why not. "Wild" is a block handed out with a length the buffer does not have; the
   * offset it leaves is before the block, and may be before the buffer.
   */
  datatype Got<T> = Got(value: T) | NotGot(code: Code) | Wild(length: uint32, offset: int)

  function Get(b: Buf, n: int): (r: (Got<seq<byte>>, Buf))
    requires WellFormed(b)
    ensures WellFormed(r.1) && !r.0.Wild?
  {
    if 0 > n then (NotGot(InvalidParameter), b)
    else if b.size < b.offset + n then (NotGot(OutOfRange), b)
    else (Got(b.bytes[b.offset..b.offset + n]), b.(offset := b.offset + n))
  }

  function GetInt(b: Buf): (r: (Got<int32>, Buf))
    requires WellFormed(b)
    ensures WellFormed(r.1)
  {
    var g := Get(b, 4);
    if g.0.NotGot? then (NotGot(g.0.code), b) else (Got(Signed32(FromLittleEndian(g.0.value))), g.1)
  }

  /** The length field of a string. */
  function LengthField(b: Buf): uint32
    requires WellFormed(b) && b.offset + 4 <= b.size
  {
    FromLittleEndian(b.bytes[b.offset..b.offset + 4])
  }

  /** The length as the reader compares it with what is left: as a signed number. */
  function StringLength(b: Buf): (r: int32)
    requires WellFormed(b) && b.offset + 4 <= b.size
  {
    Signed32(LengthField(b))
  }

  /** A length field of 2^31 or more passes the comparison, whatever is left. */
  predicate RunsWild(b: Buf)
    requires WellFormed(b)
  {
    b.offset + 4 <= b.size && StringLength(b) < 0
  }

  /** After a wild block nothing is said but what was handed out and where the reader's offset is. */
  function GetString(b: Buf): (r: (Got<seq<byte>>, Buf))
    requires WellFormed(b)
    ensures WellFormed(r.1)
  {
    if b.size < b.offset + 4 then (NotGot(OutOfRange), b)
    else if RunsWild(b) then (Wild(LengthField(b), b.offset + 4 + StringLength(b)), b)
    else Get(b.(offset := b.offset + 4), StringLength(b))
  }

  /** Adding an unsigned number to the offset in 32 bits is adding it as a signed one. */
  lemma {:induction false} AddsSigned(offset: int32, field: uint32)
    requires 0 <= offset && (field < TWO_TO_THE_31 ==> offset + field < TWO_TO_THE_31)
    ensures Signed32(offset + field) == offset + Signed32(field)
  {}

  lemma {:induction false} RefusedText(b: Buf, field: uint32)
    requires WellFormed(b) && b.offset + 4 <= b.size && field == LengthField(b)
    requires b.size < b.offset + 4 + Signed32(field)
    ensures GetString(b) == (NotGot(OutOfRange), b.(offset := b.offset + 4))
  {}

  lemma {:induction false} AcceptedText(b: Buf, field: uint32, offset: int)
    requires WellFormed(b) && b.offset + 4 <= b.size && field == LengthField(b)
    requires b.offset + 4 + Signed32(field) <= b.size && offset == Signed32(b.offset + 4 + field)
    ensures if Signed32(field) < 0 then GetString(b) == (Wild(field, offset), b)
            else b.offset + 4 <= offset <= b.size
                 && GetString(b) == (Got(b.bytes[b.offset + 4..offset]), b.(offset := offset))
  {
    AddsSigned(b.offset + 4, field);
  }

  // ---------- the programs ----------

  method MemCpy(to: array<byte>, at: nat, data: seq<byte>)
    requires at + |data| <= to.Length
    modifies to
    ensures to[..] == Overwrite(old(to[..]), at, data)
  {
    var i := 0;
    while i < |data|
      invariant i <= |data|
      invariant forall k :: 0 <= k < to.Length ==> to[k] == if at <= k < at + i then data[k - at] else old(to[k])
    {
      to[at + i] := data[i];
      i := i + 1;
    }
  }

  class SendBufInStack {
    const buf: array<byte>
    var bufSize: nat
    var dataOffset: nat

    ghost predicate Valid()
      reads this
    {
      bufSize <= buf.Length < TWO_TO_THE_31
    }

    ghost function State(): Buf
      reads this, buf
    {
      Buf(buf[..], bufSize, dataOffset)
    }

    constructor (memory: array<byte>)
      requires memory.Length < TWO_TO_THE_31
      ensures Valid() && buf == memory && State() == Buf(memory[..], memory.Length, 0)
    {
      buf, bufSize, dataOffset := memory, memory.Length, 0;
    }

    method SetBufSize(size: int) returns (code: Code)
      requires Valid()
      modifies this`bufSize
      ensures Valid() && (code, State()) == Resize(old(State()), size)
    {
      if 0 > size {
        return InvalidParameter;
      }
      if 0 == size {
        bufSize := 0;
        return Success;
      }
      if size > buf.Length {
        return NotEnoughBuffer;
      }
      bufSize := size;
      code := Success;
    }

    method SetWriteStartOff(offset: int) returns (code: Code)
      requires Valid()
      modifies this`dataOffset
      ensures Valid() && (code, State()) == SetOffset(old(State()), offset)
    {
      if 0 > offset || bufSize <= offset {
        return InvalidParameter;
      }
      dataOffset := offset;
      code := Success;
    }

    method WriteData(data: seq<byte>) returns (code: Code)
      requires Valid()
      modifies this`dataOffset, buf
      ensures Valid() && (code, State()) == Put(old(State()), data)
    {
      if bufSize < dataOffset + |data| {
        return OutOfRange;
      }
      MemCpy(buf, dataOffset, data);
      dataOffset := dataOffset + |data|;
      code := Success;
    }

    method WriteInt(v: int32) returns (code: Code)
      requires Valid()
      modifies this`dataOffset, buf
      ensures Valid() && (code, State()) == Put(old(State()), LittleEndian(Wrap32(v)))
    {
      code := WriteData(LittleEndian(Wrap32(v)));
    }

    method WriteByte(v: byte) returns (code: Code)
      requires Valid()
      modifies this`dataOffset, buf
      ensures Valid() && (code, State()) == Put(old(State()), [v])
    {
      code := WriteData([v]);
    }

    /** No string is the empty string. */
    method WriteString(s: Option<seq<byte>>) returns (code: Code)
      requires Valid()
      modifies this`dataOffset, buf
      ensures Valid() && (code, State()) == PutString(old(State()), if s.None? then [] else s.value)
    {
      var text := if s.None? then [] else s.value;
      var length := LittleEndian(Wrap32(|text| + 1));
      if bufSize < dataOffset + 4 {
        return OutOfRange;
      }
      MemCpy(buf, dataOffset, length);
      dataOffset := dataOffset + 4;
      var block := text + [0];
      if bufSize < dataOffset + |block| {
        return OutOfRange;
      }
      MemCpy(buf, dataOffset, block);
      dataOffset := dataOffset + |block|;
      code := Success;
    }
  }

  class SendBuf2 {
    var buf: array?<byte>
    var bufSize: nat
    var dataOffset: nat

    ghost predicate Valid()
      reads this
    {
      if buf == null then bufSize == 0 else bufSize <= buf.Length < TWO_TO_THE_31 && buf.Length > 0
    }

    ghost function State(): Buf
      reads this, buf
    {
      Buf(if buf == null then [] else buf[..], bufSize, dataOffset)
    }

    constructor ()
      ensures Valid() && State() == Buf([], 0, 0)
    {
      buf, bufSize, dataOffset := null, 0, 0;
    }

    method SetBufSize(size: int32, stay: bool) returns (code: Code, ghost unset: seq<byte>)
      requires Valid()
      modifies this`buf, this`bufSize
      ensures Valid() && (size >= 0 ==> |unset| == size)
      ensures (code, State()) == Renew(old(State()), size, stay, unset)
      ensures buf == null || buf == old(buf) || fresh(buf)
    {
      unset := if size < 0 then [] else seq(size, _ => 0);
      if 0 > size {
        return InvalidParameter, unset;
      }
      if 0 == size {
        buf, bufSize := null, 0;
        return Success, unset;
      }
      if buf != null && stay && size <= buf.Length {
        bufSize := size;
        return Success, unset;
      }
      var memory := new byte[size];
      unset := memory[..];
      ghost var kept := State().bytes[..Min(bufSize, size)];
      if buf != null {
        MemCpy(memory, 0, buf[..Min(bufSize, size)]);
      }
      assert memory[..] == kept + unset[|kept|..];
      buf, bufSize := memory, size;
      code := Success;
    }

    method SetWriteStartOff(offset: int) returns (code: Code)
      requires Valid()
      modifies this`dataOffset
      ensures Valid() && (code, State()) == SetOffset(old(State()), offset)
    {
      if 0 > offset || bufSize <= offset {
        return InvalidParameter;
      }
      dataOffset := offset;
      code := Success;
    }

    method WriteData(data: seq<byte>) returns (code: Code)
      requires Valid()
      modifies this`dataOffset, buf
      ensures Valid() && (code, State()) == Put(old(State()), data)
    {
      if bufSize < dataOffset + |data| {
        return OutOfRange;
      }
      if buf != null {
        MemCpy(buf, dataOffset, data);
      }
      dataOffset := dataOffset + |data|;
      code := Success;
    }

    method WriteInt(v: int32) returns (code: Code)
      requires Valid()
      modifies this`dataOffset, buf
      ensures Valid() && (code, State()) == Put(old(State()), LittleEndian(Wrap32(v)))
    {
      code := WriteData(LittleEndian(Wrap32(v)));
    }

    method WriteString(text: seq<byte>) returns (code: Code)
      requires Valid()
      modifies this`dataOffset, buf
      ensures Valid() && (code, State()) == PutString(old(State()), text)
    {
      code := WriteData(LittleEndian(Wrap32(|text| + 1)));
      if code != Success {
        return;
      }
      code := WriteData(text + [0]);
    }
  }

  class RecvBufInStack {
    const buf: array<byte>
    var bufSize: nat
    /** Negative only after a wild block. */
    var dataOffset: int

    ghost predicate Valid()
      reads this
    {
      bufSize <= buf.Length < TWO_TO_THE_31 && 0 <= dataOffset
    }

    ghost function State(): Buf
      requires Valid()
      reads this, buf
    {
      Buf(buf[..], bufSize, dataOffset)
    }

    constructor (memory: array<byte>)
      requires memory.Length < TWO_TO_THE_31
      ensures Valid() && buf == memory && State() == Buf(memory[..], memory.Length, 0)
    {
      buf, bufSize, dataOffset := memory, memory.Length, 0;
    }

    /** Takes over received bytes; the read offset stays. */
    method CopyData(data: seq<byte>) returns (code: Code)
      requires Valid()
      modifies this`bufSize, buf
      ensures Valid() && code == if |data| > buf.Length then NotEnoughBuffer else Success
      ensures State() == if code != Success then old(State())
                         else Buf(Overwrite(old(buf[..]), 0, data), |data|, old(dataOffset))
    {
      if |data| > buf.Length {
        return NotEnoughBuffer;
      }
      bufSize := |data|;
      MemCpy(buf, 0, data);
      code := Success;
    }

    method SetReadStartOff(offset: int) returns (code: Code)
      requires Valid()
      modifies this`dataOffset
      ensures Valid() && (code, State()) == SetOffset(old(State()), offset)
    {
      if 0 > offset || bufSize <= offset {
        return InvalidParameter;
      }
      dataOffset := offset;
      code := Success;
    }

    method GetData(n: int) returns (r: Got<seq<byte>>)
      requires Valid()
      modifies this`dataOffset
      ensures Valid() && (r, State()) == Get(old(State()), n)
    {
      if 0 > n {
        return NotGot(InvalidParameter);
      }
      if bufSize < dataOffset + n {
        return NotGot(OutOfRange);
      }
      r := Got(buf[dataOffset..dataOffset + n]);
      dataOffset := dataOffset + n;
    }

    method GetInteger() returns (r: Got<int32>)
      requires Valid()
      modifies this`dataOffset
      ensures Valid() && (r, State()) == GetInt(old(State()))
    {
      if bufSize < dataOffset + 4 {
        return NotGot(OutOfRange);
      }
      r := Got(Signed32(FromLittleEndian(buf[dataOffset..dataOffset + 4])));
      dataOffset := dataOffset + 4;
    }

    method GetText() returns (r: Got<seq<byte>>)
      requires Valid()
      modifies this`dataOffset
      ensures r == GetString(old(State())).0
      ensures dataOffset == if r.Wild? then r.offset else GetString(old(State())).1.offset
      ensures !r.Wild? ==> Valid() && State() == GetString(old(State())).1
    {
      if bufSize < dataOffset + 4 {
        return NotGot(OutOfRange);
      }
      var field := FromLittleEndian(buf[dataOffset..dataOffset + 4]);
      ghost var b := State();
      dataOffset := dataOffset + 4;
      if bufSize < dataOffset + Signed32(field) {
        RefusedText(b, field);
        return NotGot(OutOfRange);
      }
      var start := dataOffset;
      dataOffset := Signed32(dataOffset + field);
      AcceptedText(b, field, dataOffset);
      if Signed32(field) < 0 {
        return Wild(field, dataOffset);
      }
      r := Got(buf[start..dataOffset]);
    }
  }

  class RecvBuf2 {
    var buf: array?<byte>
    var bufSize: nat
    /** Negative only after a wild block. */
    var dataOffset: int

    ghost predicate Valid()
      reads this
    {
      && 0 <= dataOffset
      && if buf == null then bufSize == 0 else bufSize <= buf.Length < TWO_TO_THE_31 && buf.Length > 0
    }

    ghost function State(): Buf
      requires Valid()
      reads this, buf
    {
      Buf(if buf == null then [] else buf[..], bufSize, dataOffset)
    }

    constructor ()
      ensures Valid() && State() == Buf([], 0, 0)
    {
      buf, bufSize, dataOffset := null, 0, 0;
    }

    method FreeBuf()
      requires Valid()
      modifies this`buf, this`bufSize
      ensures Valid() && buf == null && State() == Buf([], 0, dataOffset)
    {
      if buf != null {
        buf, bufSize := null, 0;
      }
    }

    method RenewBuf(size: nat) returns (ghost unset: seq<byte>)
      requires Valid() && 0 < size < TWO_TO_THE_31
      modifies this`buf, this`bufSize
      ensures Valid() && |unset| == size && fresh(buf) && buf != null
      ensures State() == Renew(old(State()), size, false, unset).1
    {
      var memory := new byte[size];
      unset := memory[..];
      if buf != null {
        MemCpy(memory, 0, buf[..Min(size, bufSize)]);
        FreeBuf();
      }
      buf, bufSize := memory, size;
    }

    method SetBufSize(size: int32, stay: bool) returns (code: Code, ghost unset: seq<byte>)
      requires Valid()
      modifies this`buf, this`bufSize
      ensures Valid() && (size >= 0 ==> |unset| == size)
      ensures (code, State()) == Renew(old(State()), size, stay, unset)
      ensures buf == null || buf == old(buf) || fresh(buf)
    {
      unset := if size < 0 then [] else seq(size, _ => 0);
      if 0 > size {
        return InvalidParameter, unset;
      }
      if 0 == size {
        FreeBuf();
        return Success, unset;
      }
      if buf != null && stay && size <= buf.Length {
        bufSize := size;
        return Success, unset;
      }
      unset := RenewBuf(size);
      code := Success;
    }

    method CopyData(data: seq<byte>, stay: bool) returns (code: Code, ghost unset: seq<byte>)
      requires Valid() && |data| < TWO_TO_THE_31
      modifies this`buf, this`bufSize, buf
      ensures Valid() && code == Success && |unset| == |data|
      ensures var r := Renew(old(State()), |data|, stay, unset).1;
              |data| <= |r.bytes| && State() == r.(bytes := Overwrite(r.bytes, 0, data))
      ensures State().size == |data| && State().bytes[..|data|] == data
    {
      code, unset := SetBufSize(|data|, stay);
      if buf != null {
        MemCpy(buf, 0, data);
      }
    }

    method SetReadStartOff(offset: int) returns (code: Code)
      requires Valid()
      modifies this`dataOffset
      ensures Valid() && (code, State()) == SetOffset(old(State()), offset)
    {
      if 0 > offset || bufSize <= offset {
        return InvalidParameter;
      }
      dataOffset := offset;
      code := Success;
    }

    method GetData(n: int) returns (r: Got<seq<byte>>)
      requires Valid()
      modifies this`dataOffset
      ensures Valid() && (r, State()) == Get(old(State()), n)
    {
      if 0 > n {
        return NotGot(InvalidParameter);
      }
      if bufSize < dataOffset + n {
        return NotGot(OutOfRange);
      }
      r := Got(if buf == null then [] else buf[dataOffset..dataOffset + n]);
      dataOffset := dataOffset + n;
    }

    method GetInteger() returns (r: Got<int32>)
      requires Valid()
      modifies this`dataOffset
      ensures Valid() && (r, State()) == GetInt(old(State()))
    {
      var g := GetData(4);
      r := if g.NotGot? then NotGot(g.code) else Got(Signed32(FromLittleEndian(g.value)));
    }

    method GetText() returns (r: Got<seq<byte>>)
      requires Valid()
      modifies this`dataOffset
      ensures r == GetString(old(State())).0
      ensures dataOffset == if r.Wild? then r.offset else GetString(old(State())).1.offset
      ensures !r.Wild? ==> Valid() && State() == GetString(old(State())).1
    {
      if buf == null || bufSize < dataOffset + 4 {
        return NotGot(OutOfRange);
      }
      var field := FromLittleEndian(buf[dataOffset..dataOffset + 4]);
      ghost var b := State();
      dataOffset := dataOffset + 4;
      if bufSize < dataOffset + Signed32(field) {
        RefusedText(b, field);
        return NotGot(OutOfRange);
      }
      var start := dataOffset;
      dataOffset := Signed32(dataOffset + field);
      AcceptedText(b, field, dataOffset);
      if Signed32(field) < 0 {
        return Wild(field, dataOffset);
      }
      r := Got(buf[start..dataOffset]);
    }
  }
}
