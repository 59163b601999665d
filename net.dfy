/** heredian-lib/src/net.rs: the character-state record as the server and
    client exchange it, its fixed-offset little-endian codec (no `d2` field;
    the lifeless area starts at byte 37), the `Packet` frame around it, the
    `Message` envelope of the connection manager and the `Accepted` guard of
    `Server::send`. */
module Net {
  import opened Common
  import opened Wire

  /** `PacketCharInfo` of net.rs. */
  datatype CharInfo = CharInfo(
    x: I16, y: I16, w: I16, h: I16, a: I16, d: I16, dhit: I16,
    numchar: I16, idchar: I16, totchar: I16, totenemies: I16,
    exit: bool,
    healt: I16, stamina: I16, damage: I16, idmap: I16, totlifeless: I16,
    step: I16, vision: I16,
    listlifeless: Slots)

  /** `PacketCharInfo::default()`. */
  const DefaultChar := CharInfo(0, 0, 0, 0, 0, 0, 0, 0, 0, 0, 0, false,
                                0, 0, 0, 0, 0, 0, 0, NoSlots)

  /** `size_of::<PacketCharInfo>()` under `repr(C)`: 11 i16, the bool padded to
      two bytes, 7 i16, and five 14-byte `Option<PacketLifelessInfo>`. */
  const CharInfoSize := 108
  /** Where the lifeless slots start on the wire. */
  const LifelessBase := 37
  /** First byte past the slot area: what `from_bytes` needs to read. */
  const WireExtent := LifelessBase + SlotSize * SlotCount

  function ExitByte(exit: bool): Byte { if exit then 1 else 0 }

  /** The writes of `x` .. `d` (bytes 0..12). */
  function PutFieldsA(b: seq<Byte>, p: CharInfo): (r: seq<Byte>)
    requires |b| == CharInfoSize
    ensures |r| == CharInfoSize
  {
    var b1 := Put16(b, 0, p.x);
    var b2 := Put16(b1, 2, p.y);
    var b3 := Put16(b2, 4, p.w);
    var b4 := Put16(b3, 6, p.h);
    var b5 := Put16(b4, 8, p.a);
    Put16(b5, 10, p.d)
  }

  /** The writes of `dhit` .. `totenemies` and the `exit` byte (bytes 12..23). */
  function PutFieldsB(b: seq<Byte>, p: CharInfo): (r: seq<Byte>)
    requires |b| == CharInfoSize
    ensures |r| == CharInfoSize
  {
    var b1 := Put16(b, 12, p.dhit);
    var b2 := Put16(b1, 14, p.numchar);
    var b3 := Put16(b2, 16, p.idchar);
    var b4 := Put16(b3, 18, p.totchar);
    var b5 := Put16(b4, 20, p.totenemies);
    b5[22 := ExitByte(p.exit)]
  }

  /** The writes of `healt` .. `vision` (bytes 23..37). */
  function PutFieldsC(b: seq<Byte>, p: CharInfo): (r: seq<Byte>)
    requires |b| == CharInfoSize
    ensures |r| == CharInfoSize
  {
    var b1 := Put16(b, 23, p.healt);
    var b2 := Put16(b1, 25, p.stamina);
    var b3 := Put16(b2, 27, p.damage);
    var b4 := Put16(b3, 29, p.idmap);
    var b5 := Put16(b4, 31, p.totlifeless);
    var b6 := Put16(b5, 33, p.step);
    Put16(b6, 35, p.vision)
  }

  /** The zeroed buffer after the straight-line part of `to_bytes`. */
  function Header(p: CharInfo): (r: seq<Byte>)
    ensures |r| == CharInfoSize
  {
    PutFieldsC(PutFieldsB(PutFieldsA(Zeros(CharInfoSize), p), p), p)
  }

  lemma PutFieldsABytes(b: seq<Byte>, p: CharInfo)
    requires |b| == CharInfoSize
    ensures var r := PutFieldsA(b, p);
      && HoldsI16(r, 0, p.x) && HoldsI16(r, 2, p.y) && HoldsI16(r, 4, p.w)
      && HoldsI16(r, 6, p.h) && HoldsI16(r, 8, p.a) && HoldsI16(r, 10, p.d)
      && forall k :: 12 <= k < CharInfoSize ==> r[k] == b[k]
  {
  }

  lemma PutFieldsBBytes(b: seq<Byte>, p: CharInfo)
    requires |b| == CharInfoSize
    ensures var r := PutFieldsB(b, p);
      && HoldsI16(r, 12, p.dhit) && HoldsI16(r, 14, p.numchar) && HoldsI16(r, 16, p.idchar)
      && HoldsI16(r, 18, p.totchar) && HoldsI16(r, 20, p.totenemies)
      && r[22] == ExitByte(p.exit)
      && (forall k :: 0 <= k < 12 ==> r[k] == b[k])
      && (forall k :: 23 <= k < CharInfoSize ==> r[k] == b[k])
  {
  }

  lemma PutFieldsCBytes(b: seq<Byte>, p: CharInfo)
    requires |b| == CharInfoSize
    ensures var r := PutFieldsC(b, p);
      && HoldsI16(r, 23, p.healt) && HoldsI16(r, 25, p.stamina) && HoldsI16(r, 27, p.damage)
      && HoldsI16(r, 29, p.idmap) && HoldsI16(r, 31, p.totlifeless) && HoldsI16(r, 33, p.step)
      && HoldsI16(r, 35, p.vision)
      && (forall k :: 0 <= k < 23 ==> r[k] == b[k])
      && (forall k :: LifelessBase <= k < CharInfoSize ==> r[k] == b[k])
  {
  }

  /** The bytes `PacketCharInfo::to_bytes` returns. */
  function Encode(p: CharInfo): (r: seq<Byte>)
    ensures |r| == CharInfoSize
  {
    PutSlots(Header(p), LifelessBase, p.listlifeless, SlotCount)
  }

  /** The writes of `PutFieldsA`, into the array. */
  method WriteFieldsA(buf: array<Byte>, p: CharInfo)
    requires buf.Length == CharInfoSize
    modifies buf
    ensures buf[..] == PutFieldsA(old(buf[..]), p)
  {
    WriteI16(buf, 0, p.x);
    WriteI16(buf, 2, p.y);
    WriteI16(buf, 4, p.w);
    WriteI16(buf, 6, p.h);
    WriteI16(buf, 8, p.a);
    WriteI16(buf, 10, p.d);
  }

  /** The writes of `PutFieldsB`, into the array. */
  method WriteFieldsB(buf: array<Byte>, p: CharInfo)
    requires buf.Length == CharInfoSize
    modifies buf
    ensures buf[..] == PutFieldsB(old(buf[..]), p)
  {
    WriteI16(buf, 12, p.dhit);
    WriteI16(buf, 14, p.numchar);
    WriteI16(buf, 16, p.idchar);
    WriteI16(buf, 18, p.totchar);
    WriteI16(buf, 20, p.totenemies);
    ghost var before := buf[..];
    buf[22] := ExitByte(p.exit);
    assert buf[..] == before[22 := ExitByte(p.exit)];
  }

  /** The writes of `PutFieldsC`, into the array. */
  method WriteFieldsC(buf: array<Byte>, p: CharInfo)
    requires buf.Length == CharInfoSize
    modifies buf
    ensures buf[..] == PutFieldsC(old(buf[..]), p)
  {
    WriteI16(buf, 23, p.healt);
    WriteI16(buf, 25, p.stamina);
    WriteI16(buf, 27, p.damage);
    WriteI16(buf, 29, p.idmap);
    WriteI16(buf, 31, p.totlifeless);
    WriteI16(buf, 33, p.step);
    WriteI16(buf, 35, p.vision);
  }

  /** `PacketCharInfo::to_bytes`: fills a zeroed buffer field by field, then
      loops over the slots. */
  method ToBytes(p: CharInfo) returns (bytes: seq<Byte>)
    ensures bytes == Encode(p)
  {
    var buf := new Byte[CharInfoSize](_ => 0);
    assert buf[..] == Zeros(CharInfoSize);
    WriteFieldsA(buf, p);
    WriteFieldsB(buf, p);
    WriteFieldsC(buf, p);
    var i := 0;
    while i < SlotCount
      invariant 0 <= i <= SlotCount
      invariant buf[..] == PutSlots(Header(p), LifelessBase, p.listlifeless, i)
    {
      match p.listlifeless[i] {
        case Some(l) => WriteLifeless(buf, SlotOffset(LifelessBase, i), l);
        case None =>
      }
      i := i + 1;
    }
    bytes := buf[..];
  }

  /** `PacketCharInfo::from_bytes` as a value; it indexes up to byte 97 and
      panics on a shorter slice. */
  function Decode(buf: seq<Byte>): (r: CharInfo)
    requires |buf| >= WireExtent
    ensures r.exit <==> buf[22] == 1
    ensures !HasEmptySome(r.listlifeless)
  {
    CharInfo(
      Get16(buf, 0), Get16(buf, 2), Get16(buf, 4), Get16(buf, 6), Get16(buf, 8),
      Get16(buf, 10), Get16(buf, 12), Get16(buf, 14), Get16(buf, 16), Get16(buf, 18),
      Get16(buf, 20),
      buf[22] == 1,
      Get16(buf, 23), Get16(buf, 25), Get16(buf, 27), Get16(buf, 29), Get16(buf, 31),
      Get16(buf, 33), Get16(buf, 35),
      DecodeSlots(buf, LifelessBase))
  }

  /** `PacketCharInfo::from_bytes`: fills the `lifeless` array in a loop, then
      reads the main fields. */
  method FromBytes(buf: seq<Byte>) returns (p: CharInfo)
    requires |buf| >= WireExtent
    ensures p == Decode(buf)
  {
    var lifeless := new Option<Lifeless>[SlotCount](_ => None);
    for i := 0 to SlotCount
      invariant forall k :: 0 <= k < i ==> lifeless[k] == DecodeSlot(buf, SlotOffset(LifelessBase, k))
    {
      var j := SlotOffset(LifelessBase, i);
      var life := GetLifeless(buf, j);
      if life != EmptyLifeless {
        lifeless[i] := Some(life);
      } else {
        lifeless[i] := None;
      }
    }
    var slots: Slots := lifeless[..];
    assert slots == DecodeSlots(buf, LifelessBase);
    p := CharInfo(
      Get16(buf, 0), Get16(buf, 2), Get16(buf, 4), Get16(buf, 6), Get16(buf, 8),
      Get16(buf, 10), Get16(buf, 12), Get16(buf, 14), Get16(buf, 16), Get16(buf, 18),
      Get16(buf, 20),
      buf[22] == 1,
      Get16(buf, 23), Get16(buf, 25), Get16(buf, 27), Get16(buf, 29), Get16(buf, 31),
      Get16(buf, 33), Get16(buf, 35),
      slots);
  }

  /** The header leaves the slot area and the tail zero. */
  lemma HeaderTailZero(p: CharInfo)
    ensures forall k :: LifelessBase <= k < CharInfoSize ==> Header(p)[k] == 0
  {
    var a := PutFieldsA(Zeros(CharInfoSize), p);
    var b := PutFieldsB(a, p);
    PutFieldsABytes(Zeros(CharInfoSize), p);
    PutFieldsBBytes(a, p);
    PutFieldsCBytes(b, p);
  }

  /** The header's bytes, field by field. */
  lemma HeaderBytes(p: CharInfo)
    ensures var hd := Header(p);
      && HoldsI16(hd, 0, p.x) && HoldsI16(hd, 2, p.y) && HoldsI16(hd, 4, p.w)
      && HoldsI16(hd, 6, p.h) && HoldsI16(hd, 8, p.a) && HoldsI16(hd, 10, p.d)
      && HoldsI16(hd, 12, p.dhit) && HoldsI16(hd, 14, p.numchar) && HoldsI16(hd, 16, p.idchar)
      && HoldsI16(hd, 18, p.totchar) && HoldsI16(hd, 20, p.totenemies)
      && hd[22] == ExitByte(p.exit)
      && HoldsI16(hd, 23, p.healt) && HoldsI16(hd, 25, p.stamina) && HoldsI16(hd, 27, p.damage)
      && HoldsI16(hd, 29, p.idmap) && HoldsI16(hd, 31, p.totlifeless) && HoldsI16(hd, 33, p.step)
      && HoldsI16(hd, 35, p.vision)
  {
    var a := PutFieldsA(Zeros(CharInfoSize), p);
    var b := PutFieldsB(a, p);
    PutFieldsABytes(Zeros(CharInfoSize), p);
    PutFieldsBBytes(a, p);
    PutFieldsCBytes(b, p);
  }

  /** Every byte below 37 of the encoding is the header's byte. */
  lemma EncodeKeepsHeader(p: CharInfo)
    ensures forall k :: 0 <= k < LifelessBase ==> Encode(p)[k] == Header(p)[k]
  {
    forall k | 0 <= k < LifelessBase ensures Encode(p)[k] == Header(p)[k] {
      PutSlotsFrame(Header(p), LifelessBase, p.listlifeless, SlotCount, k);
    }
  }

  /** The encoding's bytes below 37, field by field. */
  lemma EncodeFieldBytes(p: CharInfo)
    ensures var b := Encode(p);
      && HoldsI16(b, 0, p.x) && HoldsI16(b, 2, p.y) && HoldsI16(b, 4, p.w)
      && HoldsI16(b, 6, p.h) && HoldsI16(b, 8, p.a) && HoldsI16(b, 10, p.d)
      && HoldsI16(b, 12, p.dhit) && HoldsI16(b, 14, p.numchar) && HoldsI16(b, 16, p.idchar)
      && HoldsI16(b, 18, p.totchar) && HoldsI16(b, 20, p.totenemies)
      && b[22] == ExitByte(p.exit)
      && HoldsI16(b, 23, p.healt) && HoldsI16(b, 25, p.stamina) && HoldsI16(b, 27, p.damage)
      && HoldsI16(b, 29, p.idmap) && HoldsI16(b, 31, p.totlifeless) && HoldsI16(b, 33, p.step)
      && HoldsI16(b, 35, p.vision)
  {
    HeaderBytes(p);
    EncodeKeepsHeader(p);
  }

  /** Each i16 field sits little-endian at its fixed offset and `exit` is one
      0/1 byte at 22. */
  lemma EncodeLayout(p: CharInfo)
    ensures var b := Encode(p);
      && b[0..2] == I16Le(p.x) && b[2..4] == I16Le(p.y)
      && b[4..6] == I16Le(p.w) && b[6..8] == I16Le(p.h)
      && b[8..10] == I16Le(p.a) && b[10..12] == I16Le(p.d)
      && b[12..14] == I16Le(p.dhit) && b[14..16] == I16Le(p.numchar)
      && b[16..18] == I16Le(p.idchar) && b[18..20] == I16Le(p.totchar)
      && b[20..22] == I16Le(p.totenemies)
      && b[22] == (if p.exit then 1 else 0)
      && b[23..25] == I16Le(p.healt) && b[25..27] == I16Le(p.stamina)
      && b[27..29] == I16Le(p.damage) && b[29..31] == I16Le(p.idmap)
      && b[31..33] == I16Le(p.totlifeless) && b[33..35] == I16Le(p.step)
      && b[35..37] == I16Le(p.vision)
  {
    var b := Encode(p);
    EncodeFieldBytes(p);
    HoldsI16Reads(b, 0, p.x); HoldsI16Reads(b, 2, p.y); HoldsI16Reads(b, 4, p.w);
    HoldsI16Reads(b, 6, p.h); HoldsI16Reads(b, 8, p.a); HoldsI16Reads(b, 10, p.d);
    HoldsI16Reads(b, 12, p.dhit); HoldsI16Reads(b, 14, p.numchar); HoldsI16Reads(b, 16, p.idchar);
    HoldsI16Reads(b, 18, p.totchar); HoldsI16Reads(b, 20, p.totenemies);
    HoldsI16Reads(b, 23, p.healt); HoldsI16Reads(b, 25, p.stamina); HoldsI16Reads(b, 27, p.damage);
    HoldsI16Reads(b, 29, p.idmap); HoldsI16Reads(b, 31, p.totlifeless); HoldsI16Reads(b, 33, p.step);
    HoldsI16Reads(b, 35, p.vision);
  }

  /** Slot `i` occupies bytes 37+12i .. 37+12i+12: a `Some` slot holds its six
      fields, a `None` slot stays zero; bytes 97..108 are always zero. */
  lemma EncodeSlotLayout(p: CharInfo, i: nat)
    requires i < SlotCount
    ensures var b := Encode(p);
      var j := LifelessBase + SlotSize * i;
      && b[j..j + SlotSize] == (match p.listlifeless[i]
           case Some(l) => LifelessBytes(l)
           case None => Zeros(SlotSize))
      && forall k :: WireExtent <= k < CharInfoSize ==> b[k] == 0
  {
    var b := Encode(p);
    var hd := Header(p);
    var j := SlotOffset(LifelessBase, i);
    HeaderTailZero(p);
    forall k | j <= k < j + SlotSize
      ensures b[k] == match p.listlifeless[i] case Some(l) => LifelessBytes(l)[k - j] case None => 0
    {
      PutSlotsRegion(hd, LifelessBase, p.listlifeless, SlotCount, i, k - j);
    }
    forall k | WireExtent <= k < CharInfoSize ensures b[k] == 0 {
      PutSlotsFrame(hd, LifelessBase, p.listlifeless, SlotCount, k);
    }
  }

  /** Decoding an encoding gives the record back with every `Some` of the
      all-zero slot turned into `None`. */
  lemma DecodeEncode(p: CharInfo)
    ensures Decode(Encode(p)) == p.(listlifeless := Normalize(p.listlifeless))
  {
    var b := Encode(p);
    EncodeFieldBytes(p);
    HoldsI16Reads(b, 0, p.x); HoldsI16Reads(b, 2, p.y); HoldsI16Reads(b, 4, p.w);
    HoldsI16Reads(b, 6, p.h); HoldsI16Reads(b, 8, p.a); HoldsI16Reads(b, 10, p.d);
    HoldsI16Reads(b, 12, p.dhit); HoldsI16Reads(b, 14, p.numchar); HoldsI16Reads(b, 16, p.idchar);
    HoldsI16Reads(b, 18, p.totchar); HoldsI16Reads(b, 20, p.totenemies);
    HoldsI16Reads(b, 23, p.healt); HoldsI16Reads(b, 25, p.stamina); HoldsI16Reads(b, 27, p.damage);
    HoldsI16Reads(b, 29, p.idmap); HoldsI16Reads(b, 31, p.totlifeless); HoldsI16Reads(b, 33, p.step);
    HoldsI16Reads(b, 35, p.vision);
    HeaderTailZero(p);
    SlotsDecodeNormalized(Header(p), LifelessBase, p.listlifeless);
  }

  /** The `ser_des` round trip: exact for every record without a `Some` all-zero slot. */
  lemma RoundTrip(p: CharInfo)
    requires !HasEmptySome(p.listlifeless)
    ensures Decode(Encode(p)) == p
  {
    DecodeEncode(p);
  }

  /** The known hole: `Some(default)` and `None` encode to the same bytes, and
      both decode as `None`. */
  lemma EmptySomeIsNone(p: CharInfo, i: nat)
    requires i < SlotCount
    ensures Encode(p.(listlifeless := p.listlifeless[i := Some(EmptyLifeless)]))
         == Encode(p.(listlifeless := p.listlifeless[i := None]))
    ensures Decode(Encode(p.(listlifeless := p.listlifeless[i := Some(EmptyLifeless)]))).listlifeless[i] == None
  {
    var p1 := p.(listlifeless := p.listlifeless[i := Some(EmptyLifeless)]);
    assert Header(p1) == Header(p);
    HeaderTailZero(p);
    PutSlotsEmptySome(Header(p), LifelessBase, p.listlifeless, i, SlotCount);
    DecodeEncode(p1);
  }

  /** `exit` decodes as true exactly when byte 22 is 1; every other byte value
      there, including the 2..255 `to_bytes` never writes, reads as false. */
  lemma ExitByteRule(buf: seq<Byte>, p: CharInfo)
    requires |buf| >= WireExtent
    ensures Decode(buf).exit <==> buf[22] == 1
    ensures Encode(p)[22] == ExitByte(p.exit) && Decode(Encode(p)).exit == p.exit
  {
    EncodeFieldBytes(p);
  }

  // ---------------------------------------------------------------------
  // The `Packet` frame

  type Sign = s: seq<Byte> | |s| == 3 witness [0, 0, 0]

  /** The ASCII bytes of "GDP". */
  const Gdp: Sign := [0x47, 0x44, 0x50]

  /** `size_of::<Packet<PacketCharInfo>>()` under `repr(C)`: the 3-byte
      signature, one padding byte, the u16 size and the 108-byte record. */
  const PacketSize := 114

  /** First byte of the payload inside the frame. */
  const PayloadBase := 5

  /** `Packet<PacketCharInfo>`. */
  datatype Packet = Packet(sign: Sign, size: U16, data: CharInfo)

  /** `Packet::new`. */
  function NewPacket(msg: CharInfo): (p: Packet)
    ensures p.sign == Gdp && p.size == PacketSize && p.data == msg
  {
    Packet(Gdp, PacketSize, msg)
  }

  /** The bytes `Packet::to_bytes` returns: a zeroed buffer of the struct's
      size with the signature, the size and the payload copied in; the last
      byte (the struct's padding) stays zero. */
  function FrameBytes(p: Packet): (r: seq<Byte>)
    ensures |r| == PacketSize
  {
    p.sign + U16Le(p.size) + Encode(p.data) + [0]
  }

  /** The header of a frame: the signature, then the size, little-endian. */
  method WriteFrameHeader(buf: array<Byte>, p: Packet)
    requires buf.Length == PacketSize
    modifies buf
    ensures buf[..] == p.sign + U16Le(p.size) + old(buf[..])[PayloadBase..]
  {
    buf[0], buf[1], buf[2] := p.sign[0], p.sign[1], p.sign[2];
    var size := U16Le(p.size);
    buf[3], buf[4] := size[0], size[1];
    assert buf[..] == buf[..PayloadBase] + buf[PayloadBase..];
  }

  /** The payload copy of `Packet::to_bytes`, from byte 5 on. */
  method WritePayload(buf: array<Byte>, data: seq<Byte>)
    requires buf.Length == PacketSize && |data| == CharInfoSize
    modifies buf
    ensures buf[..] == old(buf[..])[..PayloadBase] + data + old(buf[..])[PayloadBase + CharInfoSize..]
  {
    forall k | PayloadBase <= k < PayloadBase + CharInfoSize {
      buf[k] := data[k - PayloadBase];
    }
  }

  /** `Packet::to_bytes`. */
  method PacketToBytes(p: Packet) returns (bytes: seq<Byte>)
    ensures bytes == FrameBytes(p)
  {
    var buf := new Byte[PacketSize](_ => 0);
    WriteFrameHeader(buf, p);
    var data := ToBytes(p.data);
    WritePayload(buf, data);
    bytes := buf[..];
    assert bytes == p.sign + U16Le(p.size) + data + [0];
  }

  /** `Packet::from_bytes`: the signature is taken as it is, never checked;
      the payload is decoded from byte 5, so the slice needs 102 bytes. */
  function PacketFromBytes(buf: seq<Byte>): (p: Packet)
    requires |buf| >= PayloadBase + WireExtent
    ensures p.sign == buf[..3]
  {
    Packet(buf[..3], U16FromLe(buf[3], buf[4]), Decode(buf[PayloadBase..]))
  }

  /** A new packet's frame is 114 bytes: "GDP", then 114 little-endian. */
  lemma NewPacketFrame(msg: CharInfo)
    ensures var b := FrameBytes(NewPacket(msg));
      && |b| == PacketSize && b[..3] == Gdp && b[3] == 114 && b[4] == 0
      && b[PayloadBase..PayloadBase + CharInfoSize] == Encode(msg)
      && b[PacketSize - 1] == 0
  {
    var b := FrameBytes(NewPacket(msg));
    assert b[PayloadBase..PayloadBase + CharInfoSize] == Encode(msg);
  }

  /** The `ser_des` test: a frame decodes back to the same signature and size,
      and to the same record up to the all-zero-slot hole. */
  lemma PacketRoundTrip(p: Packet)
    ensures var q := PacketFromBytes(FrameBytes(p));
      && q.sign == p.sign && q.size == p.size
      && q.data == p.data.(listlifeless := Normalize(p.data.listlifeless))
    ensures !HasEmptySome(p.data.listlifeless) ==> PacketFromBytes(FrameBytes(p)) == p
  {
    var b := FrameBytes(p);
    assert b[..3] == p.sign;
    assert b[PayloadBase..][..CharInfoSize] == Encode(p.data);
    U16LeRoundTrip(p.size);
    DecodePrefix(b[PayloadBase..], Encode(p.data));
    DecodeEncode(p.data);
  }

  /** `from_bytes` reads only the first 97 bytes of the record. */
  lemma DecodePrefix(buf: seq<Byte>, enc: seq<Byte>)
    requires |enc| >= WireExtent && |buf| >= |enc| && buf[..|enc|] == enc
    ensures Decode(buf) == Decode(enc)
  {
    assert forall k :: 0 <= k < |enc| ==> buf[k] == enc[k];
    assert DecodeSlots(buf, LifelessBase) == DecodeSlots(enc, LifelessBase) by {
      forall i | 0 <= i < SlotCount {
        GetLifelessLocal(buf, enc, SlotOffset(LifelessBase, i));
      }
    }
  }

  // ---------------------------------------------------------------------
  // Messages between the game and the connection manager

  /** An IPv4 socket address. */
  datatype SocketAddr = SocketAddr(ip: seq<Byte>, port: U16)

  /** `Message<TMsg>`; `Disconnected` is the variant the server's game code
      receives when a peer goes away. */
  datatype Message<T> =
    | Accepted(addr: SocketAddr)
    | Disconnected(addr: SocketAddr)
    | Broadcast(msg: T)
    | BroadcastExcept(msg: T, addr: SocketAddr)
    | Direct(msg: T, addr: SocketAddr)

  /** The guard at the head of `Server::send`: `Accepted` is refused with a
      panic, anything else is passed on unchanged. */
  function CheckSend<T>(m: Message<T>): (r: Result<Message<T>, string>)
    ensures r.Failure? <==> m.Accepted?
    ensures r.Success? ==> r.value == m
  {
    if m.Accepted? then Failure("This type of message is not allowed to be sent.") else Success(m)
  }

  /** The sending half of `Server`: what has been handed to the connection
      thread, in order. */
  class Server<T> {
    var sent: seq<Message<T>>

    constructor ()
      ensures sent == []
    {
      sent := [];
    }

    /** `Server::send`; an `Accepted` message panics, so callers must not pass one. */
    method Send(m: Message<T>)
      requires CheckSend(m).Success?
      modifies this
      ensures sent == old(sent) + [m]
    {
      sent := sent + [CheckSend(m).value];
    }
  }
}
