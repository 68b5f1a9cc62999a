/**
 * Ultima 8's `CreateItemProcess`: the process that creates one item, and the
 * fixed-layout record its `saveData` writes and its `loadData` reads back.
 * The record is ten fields, every multi-byte field little-endian (least
 * significant byte first); the signed coordinates are stored as their
 * two's-complement 32-bit patterns.
 */
module ItemProcess {

  type uint8 = x: int | 0 <= x < 0x100
  type uint16 = x: int | 0 <= x < 0x1_0000
  type uint32 = x: int | 0 <= x < 0x1_0000_0000
  type int32 = x: int | -0x8000_0000 <= x < 0x8000_0000

  /** `static_cast<uint32>` of a signed 32-bit value: its two's-complement bit pattern. */
  function ToUnsigned(x: int32): uint32
  {
    if x < 0 then x + 0x1_0000_0000 else x
  }

  /** `static_cast<int32>` of an unsigned 32-bit value: patterns from 2^31 on are negative. */
  function ToSigned(u: uint32): int32
  {
    if u < 0x8000_0000 then u else u - 0x1_0000_0000
  }

  /**
   * The two casts are inverse bijections between the signed and the unsigned
   * 32-bit ranges, each keeping the value modulo 2^32, and the sign of a
   * signed value is the top bit of its pattern.
   */
  lemma TwosComplement(x: int32, u: uint32)
    ensures ToSigned(ToUnsigned(x)) == x
    ensures ToUnsigned(ToSigned(u)) == u
    ensures ToUnsigned(x) % 0x1_0000_0000 == x % 0x1_0000_0000
    ensures ToSigned(u) % 0x1_0000_0000 == u % 0x1_0000_0000
    ensures x < 0 <==> ToUnsigned(x) >= 0x8000_0000
  {
  }

  /** `writeUint16LE`'s bytes: low byte first. */
  function LE16(v: uint16): seq<uint8>
  {
    [v % 0x100, v / 0x100]
  }

  /** `writeUint32LE`'s bytes: the low half first, each half low byte first. */
  function LE32(v: uint32): seq<uint8>
  {
    LE16(v % 0x1_0000) + LE16(v / 0x1_0000)
  }

  /** `readUint16LE` of the two bytes of `b` at `off`. */
  function Read16(b: seq<uint8>, off: nat): uint16
    requires off + 2 <= |b|
  {
    b[off] as int + 0x100 * b[off + 1] as int
  }

  /** `readUint32LE` of the four bytes of `b` at `off`. */
  function Read32(b: seq<uint8>, off: nat): uint32
    requires off + 4 <= |b|
  {
    Read16(b, off) as int + 0x1_0000 * Read16(b, off + 2) as int
  }

  /** Reading back what was written gives the value, at any position of a longer buffer. */
  lemma LE16RoundTrip(pre: seq<uint8>, v: uint16, post: seq<uint8>)
    ensures Read16(pre + LE16(v) + post, |pre|) == v
  {
    var b := pre + LE16(v) + post;
    assert b[|pre|] == v % 0x100 && b[|pre| + 1] == v / 0x100;
  }

  lemma LE32RoundTrip(pre: seq<uint8>, v: uint32, post: seq<uint8>)
    ensures Read32(pre + LE32(v) + post, |pre|) == v
  {
    var b := pre + LE32(v) + post;
    assert b == pre + LE16(v % 0x1_0000) + (LE16(v / 0x1_0000) + post);
    LE16RoundTrip(pre, v % 0x1_0000, LE16(v / 0x1_0000) + post);
    assert b == (pre + LE16(v % 0x1_0000)) + LE16(v / 0x1_0000) + post;
    LE16RoundTrip(pre + LE16(v % 0x1_0000), v / 0x1_0000, post);
  }

  /** Writing what was read gives the bytes back: every byte pattern is a value's encoding. */
  lemma Read16Encodes(b: seq<uint8>, off: nat)
    requires off + 2 <= |b|
    ensures LE16(Read16(b, off)) == b[off..off + 2]
  {
    var v := Read16(b, off);
    assert v % 0x100 == b[off] && v / 0x100 == b[off + 1];
  }

  lemma Read32Encodes(b: seq<uint8>, off: nat)
    requires off + 4 <= |b|
    ensures LE32(Read32(b, off)) == b[off..off + 4]
  {
    var lo, hi := Read16(b, off), Read16(b, off + 2);
    var v := Read32(b, off);
    assert v % 0x1_0000 == lo && v / 0x1_0000 == hi;
    Read16Encodes(b, off);
    Read16Encodes(b, off + 2);
    assert b[off..off + 4] == b[off..off + 2] + b[off + 2..off + 4];
  }

  /** The least significant byte comes first and the most significant last. */
  lemma LittleEndian(v: uint32)
    ensures LE32(v)[0] == v % 0x100 && LE32(v)[3] == v / 0x100_0000
    ensures LE16(v % 0x1_0000)[0] == v % 0x100
  {
  }

  /** The ten fields a `CreateItemProcess` holds. */
  datatype ItemFields = ItemFields(
    shape: uint32,
    frame: uint32,
    quality: uint16,
    flags: uint16,
    npcNum: uint16,
    mapNum: uint16,
    extendedFlags: uint32,
    x: int32,
    y: int32,
    z: int32)

  /** The size of the record `saveData` writes after the base process's own data. */
  const PAYLOAD_SIZE: nat := 32

  /** The record `saveData` writes, field by field in declaration order. */
  function Encode(f: ItemFields): (r: seq<uint8>)
    ensures |r| == PAYLOAD_SIZE
  {
    LE32(f.shape) + LE32(f.frame)
    + LE16(f.quality) + LE16(f.flags) + LE16(f.npcNum) + LE16(f.mapNum)
    + LE32(f.extendedFlags)
    + LE32(ToUnsigned(f.x)) + LE32(ToUnsigned(f.y)) + LE32(ToUnsigned(f.z))
  }

  /** Appending a record to a stream's bytes is appending its fields one after the other. */
  lemma EncodeAppend(d: seq<uint8>, f: ItemFields)
    ensures d + Encode(f) ==
      d + LE32(f.shape) + LE32(f.frame)
      + LE16(f.quality) + LE16(f.flags) + LE16(f.npcNum) + LE16(f.mapNum)
      + LE32(f.extendedFlags)
      + LE32(ToUnsigned(f.x)) + LE32(ToUnsigned(f.y)) + LE32(ToUnsigned(f.z))
  {
  }

  /** The record `loadData` reads from the bytes of `b` at `off`. */
  function Decode(b: seq<uint8>, off: nat): ItemFields
    requires off + PAYLOAD_SIZE <= |b|
  {
    ItemFields(
      Read32(b, off), Read32(b, off + 4),
      Read16(b, off + 8), Read16(b, off + 10), Read16(b, off + 12), Read16(b, off + 14),
      Read32(b, off + 16),
      ToSigned(Read32(b, off + 20)), ToSigned(Read32(b, off + 24)), ToSigned(Read32(b, off + 28)))
  }

  /**
   * The layout of the record: shape and frame as four bytes each at 0 and 4,
   * quality, flags, npc and map number as two bytes each at 8 to 14, the
   * extended flags as four bytes at 16, and x, y, z as four bytes each at
   * 20, 24 and 28.
   */
  lemma Layout(f: ItemFields)
    ensures var r := Encode(f);
      && r[0..4] == LE32(f.shape) && r[4..8] == LE32(f.frame)
      && r[8..10] == LE16(f.quality) && r[10..12] == LE16(f.flags)
      && r[12..14] == LE16(f.npcNum) && r[14..16] == LE16(f.mapNum)
      && r[16..20] == LE32(f.extendedFlags)
      && r[20..24] == LE32(ToUnsigned(f.x)) && r[24..28] == LE32(ToUnsigned(f.y)) && r[28..32] == LE32(ToUnsigned(f.z))
  {
  }

  /** Splits a record into the bytes before the field at `off`, the field's `n` bytes and the rest. */
  lemma {:induction false} SplitAt(b: seq<uint8>, off: nat, n: nat)
    requires off + n <= |b|
    ensures b == b[..off] + b[off..off + n] + b[off + n..]
  {
  }

  /** `loadData` after `saveData` restores all ten fields, wherever the record sits in the stream. */
  lemma {:induction false} DecodeEncode(pre: seq<uint8>, f: ItemFields, post: seq<uint8>)
    ensures Decode(pre + Encode(f) + post, |pre|) == f
  {
    var b := pre + Encode(f) + post;
    var o := |pre|;
    Layout(f);
    assert b[o..o + PAYLOAD_SIZE] == Encode(f);
    SplitAt(b, o, 4);       LE32RoundTrip(b[..o], f.shape, b[o + 4..]);
    SplitAt(b, o + 4, 4);   LE32RoundTrip(b[..o + 4], f.frame, b[o + 8..]);
    SplitAt(b, o + 8, 2);   LE16RoundTrip(b[..o + 8], f.quality, b[o + 10..]);
    SplitAt(b, o + 10, 2);  LE16RoundTrip(b[..o + 10], f.flags, b[o + 12..]);
    SplitAt(b, o + 12, 2);  LE16RoundTrip(b[..o + 12], f.npcNum, b[o + 14..]);
    SplitAt(b, o + 14, 2);  LE16RoundTrip(b[..o + 14], f.mapNum, b[o + 16..]);
    SplitAt(b, o + 16, 4);  LE32RoundTrip(b[..o + 16], f.extendedFlags, b[o + 20..]);
    SplitAt(b, o + 20, 4);  LE32RoundTrip(b[..o + 20], ToUnsigned(f.x), b[o + 24..]);
    SplitAt(b, o + 24, 4);  LE32RoundTrip(b[..o + 24], ToUnsigned(f.y), b[o + 28..]);
    SplitAt(b, o + 28, 4);  LE32RoundTrip(b[..o + 28], ToUnsigned(f.z), b[o + 32..]);
    TwosComplement(f.x, 0);
    TwosComplement(f.y, 0);
    TwosComplement(f.z, 0);
  }

  /** `saveData` after `loadData` rewrites the 32 bytes that were read: no record is lost or normalised. */
  lemma {:induction false} EncodeDecode(b: seq<uint8>, off: nat)
    requires off + PAYLOAD_SIZE <= |b|
    ensures Encode(Decode(b, off)) == b[off..off + PAYLOAD_SIZE]
  {
    var f := Decode(b, off);
    Layout(f);
    Read32Encodes(b, off);
    Read32Encodes(b, off + 4);
    Read16Encodes(b, off + 8);
    Read16Encodes(b, off + 10);
    Read16Encodes(b, off + 12);
    Read16Encodes(b, off + 14);
    Read32Encodes(b, off + 16);
    TwosComplement(0, Read32(b, off + 20));
    TwosComplement(0, Read32(b, off + 24));
    TwosComplement(0, Read32(b, off + 28));
    Read32Encodes(b, off + 20);
    Read32Encodes(b, off + 24);
    Read32Encodes(b, off + 28);
    var r := Encode(f);
    forall k | 0 <= k < PAYLOAD_SIZE ensures r[k] == b[off + k] {
      if k < 4 { assert r[k] == r[0..4][k]; }
      else if k < 8 { assert r[k] == r[4..8][k - 4]; }
      else if k < 10 { assert r[k] == r[8..10][k - 8]; }
      else if k < 12 { assert r[k] == r[10..12][k - 10]; }
      else if k < 14 { assert r[k] == r[12..14][k - 12]; }
      else if k < 16 { assert r[k] == r[14..16][k - 14]; }
      else if k < 20 { assert r[k] == r[16..20][k - 16]; }
      else if k < 24 { assert r[k] == r[20..24][k - 20]; }
      else if k < 28 { assert r[k] == r[24..28][k - 24]; }
      else { assert r[k] == r[28..32][k - 28]; }
    }
  }

  /** A stream being written: the bytes so far. */
  class WriteStream {
    var data: seq<uint8>

    constructor ()
      ensures data == []
    {
      data := [];
    }

    method WriteUint16LE(v: uint16)
      modifies this
      ensures data == old(data) + LE16(v)
    {
      data := data + LE16(v);
    }

    method WriteUint32LE(v: uint32)
      modifies this
      ensures data == old(data) + LE32(v)
    {
      data := data + LE32(v);
    }
  }

  /** The read position after reading `n` bytes at `pos` of a stream of `len` bytes: a short read stops at the end. */
  function After(pos: nat, n: nat, len: nat): nat
  {
    if pos + n <= len then pos + n else len
  }

  /**
   * A stream being read: its bytes and the read position. A read past the end
   * leaves the position at the end and sets `eos`; the value such a read
   * yields is not modelled beyond its range.
   */
  class ReadStream {
    const data: seq<uint8>
    var pos: nat
    var eos: bool

    predicate Valid()
      reads this
    {
      pos <= |data|
    }

    constructor (bytes: seq<uint8>)
      ensures data == bytes && pos == 0 && !eos && Valid()
    {
      data, pos, eos := bytes, 0, false;
    }

    method ReadUint16LE() returns (v: uint16)
      requires Valid()
      modifies this
      ensures Valid()
      ensures pos == After(old(pos), 2, |data|) && eos == (old(eos) || old(pos) + 2 > |data|)
      ensures old(pos) + 2 <= |data| ==> v == Read16(data, old(pos))
    {
      if pos + 2 <= |data| {
        v := Read16(data, pos);
        pos := pos + 2;
      } else {
        v := 0;
        pos, eos := |data|, true;
      }
    }

    method ReadUint32LE() returns (v: uint32)
      requires Valid()
      modifies this
      ensures Valid()
      ensures pos == After(old(pos), 4, |data|) && eos == (old(eos) || old(pos) + 4 > |data|)
      ensures old(pos) + 4 <= |data| ==> v == Read32(data, old(pos))
    {
      if pos + 4 <= |data| {
        v := Read32(data, pos);
        pos := pos + 4;
      } else {
        v := 0;
        pos, eos := |data|, true;
      }
    }
  }

  class CreateItemProcess {
    var shape: uint32
    var frame: uint32
    var quality: uint16
    var flags: uint16
    var npcNum: uint16
    var mapNum: uint16
    var extendedFlags: uint32
    var x: int32
    var y: int32
    var z: int32

    function Fields(): ItemFields
      reads this
    {
      ItemFields(shape, frame, quality, flags, npcNum, mapNum, extendedFlags, x, y, z)
    }

    /** The process to create an item with these properties at (x, y, z). */
    constructor (shape: uint32, frame: uint32, quality: uint16, flags: uint16, npcNum: uint16, mapNum: uint16,
                 extendedFlags: uint32, x: int32, y: int32, z: int32)
      ensures Fields() == ItemFields(shape, frame, quality, flags, npcNum, mapNum, extendedFlags, x, y, z)
    {
      this.shape, this.frame, this.quality, this.flags := shape, frame, quality, flags;
      this.npcNum, this.mapNum, this.extendedFlags := npcNum, mapNum, extendedFlags;
      this.x, this.y, this.z := x, y, z;
    }

    /** `saveData`: appends the record of the ten fields to the stream. */
    method SaveData(ws: WriteStream)
      modifies ws
      ensures ws.data == old(ws.data) + Encode(Fields())
    {
      EncodeAppend(ws.data, Fields());
      ws.WriteUint32LE(shape);
      ws.WriteUint32LE(frame);
      ws.WriteUint16LE(quality);
      ws.WriteUint16LE(flags);
      ws.WriteUint16LE(npcNum);
      ws.WriteUint16LE(mapNum);
      ws.WriteUint32LE(extendedFlags);
      ws.WriteUint32LE(ToUnsigned(x));
      ws.WriteUint32LE(ToUnsigned(y));
      ws.WriteUint32LE(ToUnsigned(z));
    }

    /**
     * `loadData`: when the base process's data loaded (`baseLoaded`), reads the
     * ten fields in order and succeeds; otherwise fails before reading
     * anything. With the whole record left in the stream, the fields are its
     * decoding.
     */
    method LoadData(rs: ReadStream, baseLoaded: bool) returns (ok: bool)
      requires rs.Valid()
      modifies this, rs
      ensures rs.Valid()
      ensures ok <==> baseLoaded
      ensures !baseLoaded ==> Fields() == old(Fields()) && rs.pos == old(rs.pos) && rs.eos == old(rs.eos)
      ensures baseLoaded && old(rs.pos) + PAYLOAD_SIZE <= |rs.data| ==>
        Fields() == Decode(rs.data, old(rs.pos)) && rs.pos == old(rs.pos) + PAYLOAD_SIZE && rs.eos == old(rs.eos)
    {
      ok := baseLoaded;
      if baseLoaded {
        var f := ReadFields(rs);
        SetFields(f);
      }
    }

    /** The ten field assignments of `loadData`. */
    method SetFields(f: ItemFields)
      modifies this
      ensures Fields() == f
    {
      shape, frame, quality, flags, npcNum := f.shape, f.frame, f.quality, f.flags, f.npcNum;
      mapNum, extendedFlags, x, y, z := f.mapNum, f.extendedFlags, f.x, f.y, f.z;
    }
  }

  /** The ten reads of `loadData`, in order. */
  method ReadFields(rs: ReadStream) returns (f: ItemFields)
    requires rs.Valid()
    modifies rs
    ensures rs.Valid()
    ensures old(rs.pos) + PAYLOAD_SIZE <= |rs.data| ==>
      f == Decode(rs.data, old(rs.pos)) && rs.pos == old(rs.pos) + PAYLOAD_SIZE && rs.eos == old(rs.eos)
  {
    var shape, frame, quality, flags, npcNum, mapNum, extendedFlags := ReadProperties(rs);
    var x, y, z := ReadCoordinates(rs);
    f := ItemFields(shape, frame, quality, flags, npcNum, mapNum, extendedFlags, x, y, z);
  }

  /** The first seven reads: shape, frame, quality, flags, npc and map number, extended flags. */
  method ReadProperties(rs: ReadStream) returns (shape: uint32, frame: uint32, quality: uint16, flags: uint16,
                                                 npcNum: uint16, mapNum: uint16, extendedFlags: uint32)
    requires rs.Valid()
    modifies rs
    ensures rs.Valid()
    ensures var p := old(rs.pos); p + 20 <= |rs.data| ==>
      && shape == Read32(rs.data, p) && frame == Read32(rs.data, p + 4)
      && quality == Read16(rs.data, p + 8) && flags == Read16(rs.data, p + 10)
      && npcNum == Read16(rs.data, p + 12) && mapNum == Read16(rs.data, p + 14)
      && extendedFlags == Read32(rs.data, p + 16)
      && rs.pos == p + 20 && rs.eos == old(rs.eos)
  {
    shape := rs.ReadUint32LE();
    frame := rs.ReadUint32LE();
    quality := rs.ReadUint16LE();
    flags := rs.ReadUint16LE();
    npcNum := rs.ReadUint16LE();
    mapNum := rs.ReadUint16LE();
    extendedFlags := rs.ReadUint32LE();
  }

  /** The last three reads: the coordinates, each cast back to a signed value. */
  method ReadCoordinates(rs: ReadStream) returns (x: int32, y: int32, z: int32)
    requires rs.Valid()
    modifies rs
    ensures rs.Valid()
    ensures var p := old(rs.pos); p + 12 <= |rs.data| ==>
      && x == ToSigned(Read32(rs.data, p)) && y == ToSigned(Read32(rs.data, p + 4)) && z == ToSigned(Read32(rs.data, p + 8))
      && rs.pos == p + 12 && rs.eos == old(rs.eos)
  {
    var ux := rs.ReadUint32LE();
    var uy := rs.ReadUint32LE();
    var uz := rs.ReadUint32LE();
    x, y, z := ToSigned(ux), ToSigned(uy), ToSigned(uz);
  }

  /**
   * A process saved to a stream and loaded from those bytes into another
   * process (or the same one) comes back with the same ten fields.
   */
  method SaveLoadRoundTrip(p: CreateItemProcess, q: CreateItemProcess) returns (ok: bool)
    modifies q
    ensures ok && q.Fields() == old(p.Fields())
  {
    var ws := new WriteStream();
    p.SaveData(ws);
    var rs := new ReadStream(ws.data);
    assert rs.data == [] + Encode(p.Fields()) + [];
    ok := q.LoadData(rs, true);
    DecodeEncode([], old(p.Fields()), []);
  }
}
