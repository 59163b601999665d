/** heredian-lib/src/lib.rs: the game's shared constants and the second copy
    of the character-state codec, the one with the `d2` field (the lifeless
    area starts at byte 39). */
module HeredianLib {
  import opened Common
  import opened Wire

  const ActionIdle := 0
  const ActionWalk := 1
  const ActionRun := 2
  const ActionAttack := 3

  /** The four base directions are bit flags; a diagonal is the OR of two. */
  const DirectionLeft := 1
  const DirectionRight := 2
  const DirectionUp := 4
  const DirectionDown := 8
  const DirectionLeftUp := ((DirectionLeft as bv32) | (DirectionUp as bv32)) as int
  const DirectionLeftDown := ((DirectionLeft as bv32) | (DirectionDown as bv32)) as int
  const DirectionRightUp := ((DirectionRight as bv32) | (DirectionUp as bv32)) as int
  const DirectionRightDown := ((DirectionRight as bv32) | (DirectionDown as bv32)) as int

  /** Each base direction is a single bit, no two share a bit, and each
      diagonal is the sum of its two components. */
  lemma DirectionBits()
    ensures DirectionLeft == 1 && DirectionRight == 2 && DirectionUp == 4 && DirectionDown == 8
    ensures (DirectionLeft as bv32) & (DirectionRight as bv32) == 0
    ensures (DirectionLeft as bv32) & (DirectionUp as bv32) == 0
    ensures (DirectionLeft as bv32) & (DirectionDown as bv32) == 0
    ensures (DirectionRight as bv32) & (DirectionUp as bv32) == 0
    ensures (DirectionRight as bv32) & (DirectionDown as bv32) == 0
    ensures (DirectionUp as bv32) & (DirectionDown as bv32) == 0
    ensures DirectionLeftUp == DirectionLeft + DirectionUp
    ensures DirectionLeftDown == DirectionLeft + DirectionDown
    ensures DirectionRightUp == DirectionRight + DirectionUp
    ensures DirectionRightDown == DirectionRight + DirectionDown
  {
  }

  /** `PacketCharInfo` of lib.rs. */
  datatype CharInfo = CharInfo(
    x: I16, y: I16, w: I16, h: I16, a: I16, d: I16, d2: I16, dhit: I16,
    numchar: I16, idchar: I16, totchar: I16, totenemies: I16,
    exit: bool,
    healt: I16, stamina: I16, damage: I16, idmap: I16, totlifeless: I16,
    step: I16, vision: I16,
    listlifeless: Slots)

  /** `size_of::<PacketCharInfo>()` under `repr(C)`: 12 i16, the bool padded to
      two bytes, 7 i16, and five 14-byte `Option<PacketLifelessInfo>`. */
  const CharInfoSize := 110
  /** Where the lifeless slots start on the wire. */
  const LifelessBase := 39
  /** First byte past the slot area: what `from_bytes` needs to read. */
  const WireExtent := LifelessBase + SlotSize * SlotCount

  /** `exit as u8`. */
  function ExitByte(exit: bool): Byte { if exit then 1 else 0 }

  /** The writes of `x` .. `d` (bytes 0..12). */
  function PutFieldsA(b: seq<Byte>, p: CharInfo): (r: seq<Byte>)
    requires |b| == CharInfoSize
    ensures |r| == CharInfoSize
  {
    var b1 := Put16(b, 0, p.x);
    var b2 := Put16(b1, 2, p.y);
    var b3 := Put16(b2, 4, p.w);
    var b4 := Put16(b3, 6, p.h);
    var b5 := Put16(b4, 8, p.a);
    Put16(b5, 10, p.d)
  }

  /** The writes of `d2` .. `totenemies` and the `exit` byte (bytes 12..25). */
  function PutFieldsB(b: seq<Byte>, p: CharInfo): (r: seq<Byte>)
    requires |b| == CharInfoSize
    ensures |r| == CharInfoSize
  {
    var b1 := Put16(b, 12, p.d2);
    var b2 := Put16(b1, 14, p.dhit);
    var b3 := Put16(b2, 16, p.numchar);
    var b4 := Put16(b3, 18, p.idchar);
    var b5 := Put16(b4, 20, p.totchar);
    var b6 := Put16(b5, 22, p.totenemies);
    b6[24 := ExitByte(p.exit)]
  }

  /** The writes of `healt` .. `vision` (bytes 25..39). */
  function PutFieldsC(b: seq<Byte>, p: CharInfo): (r: seq<Byte>)
    requires |b| == CharInfoSize
    ensures |r| == CharInfoSize
  {
    var b1 := Put16(b, 25, p.healt);
    var b2 := Put16(b1, 27, p.stamina);
    var b3 := Put16(b2, 29, p.damage);
    var b4 := Put16(b3, 31, p.idmap);
    var b5 := Put16(b4, 33, p.totlifeless);
    var b6 := Put16(b5, 35, p.step);
    Put16(b6, 37, p.vision)
  }

  /** The zeroed buffer after the straight-line part of `to_bytes`. */
  function Header(p: CharInfo): (r: seq<Byte>)
    ensures |r| == CharInfoSize
  {
    PutFieldsC(PutFieldsB(PutFieldsA(Zeros(CharInfoSize), p), p), p)
  }

  lemma PutFieldsABytes(b: seq<Byte>, p: CharInfo)
    requires |b| == CharInfoSize
    ensures var r := PutFieldsA(b, p);
      && HoldsI16(r, 0, p.x) && HoldsI16(r, 2, p.y) && HoldsI16(r, 4, p.w)
      && HoldsI16(r, 6, p.h) && HoldsI16(r, 8, p.a) && HoldsI16(r, 10, p.d)
      && forall k :: 12 <= k < CharInfoSize ==> r[k] == b[k]
  {
  }

  lemma PutFieldsBBytes(b: seq<Byte>, p: CharInfo)
    requires |b| == CharInfoSize
    ensures var r := PutFieldsB(b, p);
      && HoldsI16(r, 12, p.d2) && HoldsI16(r, 14, p.dhit) && HoldsI16(r, 16, p.numchar)
      && HoldsI16(r, 18, p.idchar) && HoldsI16(r, 20, p.totchar) && HoldsI16(r, 22, p.totenemies)
      && r[24] == ExitByte(p.exit)
      && (forall k :: 0 <= k < 12 ==> r[k] == b[k])
      && (forall k :: 25 <= k < CharInfoSize ==> r[k] == b[k])
  {
  }

  lemma PutFieldsCBytes(b: seq<Byte>, p: CharInfo)
    requires |b| == CharInfoSize
    ensures var r := PutFieldsC(b, p);
      && HoldsI16(r, 25, p.healt) && HoldsI16(r, 27, p.stamina) && HoldsI16(r, 29, p.damage)
      && HoldsI16(r, 31, p.idmap) && HoldsI16(r, 33, p.totlifeless) && HoldsI16(r, 35, p.step)
      && HoldsI16(r, 37, p.vision)
      && (forall k :: 0 <= k < 25 ==> r[k] == b[k])
      && (forall k :: LifelessBase <= k < CharInfoSize ==> r[k] == b[k])
  {
  }

  /** The bytes `PacketCharInfo::to_bytes` returns. */
  function Encode(p: CharInfo): (r: seq<Byte>)
    ensures |r| == CharInfoSize
  {
    PutSlots(Header(p), LifelessBase, p.listlifeless, SlotCount)
  }

  /** The writes of `PutFieldsA`, into the array. */
  method WriteFieldsA(buf: array<Byte>, p: CharInfo)
    requires buf.Length == CharInfoSize
    modifies buf
    ensures buf[..] == PutFieldsA(old(buf[..]), p)
  {
    WriteI16(buf, 0, p.x);
    WriteI16(buf, 2, p.y);
    WriteI16(buf, 4, p.w);
    WriteI16(buf, 6, p.h);
    WriteI16(buf, 8, p.a);
    WriteI16(buf, 10, p.d);
  }

  /** The writes of `PutFieldsB`, into the array. */
  method WriteFieldsB(buf: array<Byte>, p: CharInfo)
    requires buf.Length == CharInfoSize
    modifies buf
    ensures buf[..] == PutFieldsB(old(buf[..]), p)
  {
    WriteI16(buf, 12, p.d2);
    WriteI16(buf, 14, p.dhit);
    WriteI16(buf, 16, p.numchar);
    WriteI16(buf, 18, p.idchar);
    WriteI16(buf, 20, p.totchar);
    WriteI16(buf, 22, p.totenemies);
    ghost var before := buf[..];
    buf[24] := ExitByte(p.exit);
    assert buf[..] == before[24 := ExitByte(p.exit)];
  }

  /** The writes of `PutFieldsC`, into the array. */
  method WriteFieldsC(buf: array<Byte>, p: CharInfo)
    requires buf.Length == CharInfoSize
    modifies buf
    ensures buf[..] == PutFieldsC(old(buf[..]), p)
  {
    WriteI16(buf, 25, p.healt);
    WriteI16(buf, 27, p.stamina);
    WriteI16(buf, 29, p.damage);
    WriteI16(buf, 31, p.idmap);
    WriteI16(buf, 33, p.totlifeless);
    WriteI16(buf, 35, p.step);
    WriteI16(buf, 37, p.vision);
  }

  /** `PacketCharInfo::to_bytes`: fills a zeroed buffer field by field, then
      loops over the slots. */
  method ToBytes(p: CharInfo) returns (bytes: seq<Byte>)
    ensures bytes == Encode(p)
  {
    var buf := new Byte[CharInfoSize](_ => 0);
    assert buf[..] == Zeros(CharInfoSize);
    WriteFieldsA(buf, p);
    WriteFieldsB(buf, p);
    WriteFieldsC(buf, p);
    var i := 0;
    while i < SlotCount
      invariant 0 <= i <= SlotCount
      invariant buf[..] == PutSlots(Header(p), LifelessBase, p.listlifeless, i)
    {
      match p.listlifeless[i] {
        case Some(l) => WriteLifeless(buf, SlotOffset(LifelessBase, i), l);
        case None =>
      }
      i := i + 1;
    }
    bytes := buf[..];
  }

  /** `PacketCharInfo::from_bytes` as a value; it indexes up to byte 99 and
      panics on a shorter slice. */
  function Decode(buf: seq<Byte>): (r: CharInfo)
    requires |buf| >= WireExtent
    ensures r.exit <==> buf[24] == 1
    ensures !HasEmptySome(r.listlifeless)
  {
    CharInfo(
      Get16(buf, 0), Get16(buf, 2), Get16(buf, 4), Get16(buf, 6), Get16(buf, 8), Get16(buf, 10), Get16(buf, 12), Get16(buf, 14), Get16(buf, 16), Get16(buf, 18), Get16(buf, 20), Get16(buf, 22),
      buf[24] == 1,
      Get16(buf, 25), Get16(buf, 27), Get16(buf, 29), Get16(buf, 31), Get16(buf, 33), Get16(buf, 35), Get16(buf, 37),
      DecodeSlots(buf, LifelessBase))
  }

  /** `PacketCharInfo::from_bytes`: fills the `lifeless` array in a loop, then
      reads the main fields. */
  method FromBytes(buf: seq<Byte>) returns (p: CharInfo)
    requires |buf| >= WireExtent
    ensures p == Decode(buf)
  {
    var lifeless := new Option<Lifeless>[SlotCount](_ => None);
    for i := 0 to SlotCount
      invariant forall k :: 0 <= k < i ==> lifeless[k] == DecodeSlot(buf, SlotOffset(LifelessBase, k))
    {
      var j := SlotOffset(LifelessBase, i);
      var life := GetLifeless(buf, j);
      if life != EmptyLifeless {
        lifeless[i] := Some(life);
      } else {
        lifeless[i] := None;
      }
    }
    var slots: Slots := lifeless[..];
    assert slots == DecodeSlots(buf, LifelessBase);
    p := CharInfo(
      Get16(buf, 0), Get16(buf, 2), Get16(buf, 4), Get16(buf, 6), Get16(buf, 8), Get16(buf, 10), Get16(buf, 12), Get16(buf, 14), Get16(buf, 16), Get16(buf, 18), Get16(buf, 20), Get16(buf, 22),
      buf[24] == 1,
      Get16(buf, 25), Get16(buf, 27), Get16(buf, 29), Get16(buf, 31), Get16(buf, 33), Get16(buf, 35), Get16(buf, 37),
      slots);
  }

  /** The header leaves the slot area and the tail zero. */
  lemma HeaderTailZero(p: CharInfo)
    ensures forall k :: LifelessBase <= k < CharInfoSize ==> Header(p)[k] == 0
  {
    var a := PutFieldsA(Zeros(CharInfoSize), p);
    var b := PutFieldsB(a, p);
    PutFieldsABytes(Zeros(CharInfoSize), p);
    PutFieldsBBytes(a, p);
    PutFieldsCBytes(b, p);
  }

  /** The header's bytes, field by field. */
  lemma HeaderBytes(p: CharInfo)
    ensures var hd := Header(p);
      && HoldsI16(hd, 0, p.x) && HoldsI16(hd, 2, p.y) && HoldsI16(hd, 4, p.w)
      && HoldsI16(hd, 6, p.h) && HoldsI16(hd, 8, p.a) && HoldsI16(hd, 10, p.d)
      && HoldsI16(hd, 12, p.d2) && HoldsI16(hd, 14, p.dhit) && HoldsI16(hd, 16, p.numchar)
      && HoldsI16(hd, 18, p.idchar) && HoldsI16(hd, 20, p.totchar) && HoldsI16(hd, 22, p.totenemies)
      && hd[24] == ExitByte(p.exit)
      && HoldsI16(hd, 25, p.healt) && HoldsI16(hd, 27, p.stamina) && HoldsI16(hd, 29, p.damage)
      && HoldsI16(hd, 31, p.idmap) && HoldsI16(hd, 33, p.totlifeless) && HoldsI16(hd, 35, p.step)
      && HoldsI16(hd, 37, p.vision)
  {
    var a := PutFieldsA(Zeros(CharInfoSize), p);
    var b := PutFieldsB(a, p);
    PutFieldsABytes(Zeros(CharInfoSize), p);
    PutFieldsBBytes(a, p);
    PutFieldsCBytes(b, p);
  }

  /** Every byte below 39 of the encoding is the header's byte. */
  lemma EncodeKeepsHeader(p: CharInfo)
    ensures forall k :: 0 <= k < LifelessBase ==> Encode(p)[k] == Header(p)[k]
  {
    forall k | 0 <= k < LifelessBase ensures Encode(p)[k] == Header(p)[k] {
      PutSlotsFrame(Header(p), LifelessBase, p.listlifeless, SlotCount, k);
    }
  }

  /** The encoding's bytes below 39, field by field. */
  lemma EncodeFieldBytes(p: CharInfo)
    ensures var b := Encode(p);
      && HoldsI16(b, 0, p.x) && HoldsI16(b, 2, p.y) && HoldsI16(b, 4, p.w)
      && HoldsI16(b, 6, p.h) && HoldsI16(b, 8, p.a) && HoldsI16(b, 10, p.d)
      && HoldsI16(b, 12, p.d2) && HoldsI16(b, 14, p.dhit) && HoldsI16(b, 16, p.numchar)
      && HoldsI16(b, 18, p.idchar) && HoldsI16(b, 20, p.totchar) && HoldsI16(b, 22, p.totenemies)
      && b[24] == ExitByte(p.exit)
      && HoldsI16(b, 25, p.healt) && HoldsI16(b, 27, p.stamina) && HoldsI16(b, 29, p.damage)
      && HoldsI16(b, 31, p.idmap) && HoldsI16(b, 33, p.totlifeless) && HoldsI16(b, 35, p.step)
      && HoldsI16(b, 37, p.vision)
  {
    HeaderBytes(p);
    EncodeKeepsHeader(p);
  }

  /** Each i16 field sits little-endian at its fixed offset, `d2` at 12..14
      shifting every later field by two, and `exit` is one 0/1 byte at 24. */
  lemma EncodeLayout(p: CharInfo)
    ensures var b := Encode(p);
      && b[0..2] == I16Le(p.x) && b[2..4] == I16Le(p.y)
      && b[4..6] == I16Le(p.w) && b[6..8] == I16Le(p.h)
      && b[8..10] == I16Le(p.a) && b[10..12] == I16Le(p.d)
      && b[12..14] == I16Le(p.d2) && b[14..16] == I16Le(p.dhit)
      && b[16..18] == I16Le(p.numchar) && b[18..20] == I16Le(p.idchar)
      && b[20..22] == I16Le(p.totchar) && b[22..24] == I16Le(p.totenemies)
      && b[25..27] == I16Le(p.healt) && b[27..29] == I16Le(p.stamina)
      && b[24] == (if p.exit then 1 else 0)
      && b[29..31] == I16Le(p.damage) && b[31..33] == I16Le(p.idmap)
      && b[33..35] == I16Le(p.totlifeless) && b[35..37] == I16Le(p.step)
      && b[37..39] == I16Le(p.vision)
  {
    var b := Encode(p);
    EncodeFieldBytes(p);
    HoldsI16Reads(b, 0, p.x); HoldsI16Reads(b, 2, p.y); HoldsI16Reads(b, 4, p.w);
    HoldsI16Reads(b, 6, p.h); HoldsI16Reads(b, 8, p.a); HoldsI16Reads(b, 10, p.d);
    HoldsI16Reads(b, 12, p.d2); HoldsI16Reads(b, 14, p.dhit); HoldsI16Reads(b, 16, p.numchar);
    HoldsI16Reads(b, 18, p.idchar); HoldsI16Reads(b, 20, p.totchar); HoldsI16Reads(b, 22, p.totenemies);
    HoldsI16Reads(b, 25, p.healt); HoldsI16Reads(b, 27, p.stamina); HoldsI16Reads(b, 29, p.damage);
    HoldsI16Reads(b, 31, p.idmap); HoldsI16Reads(b, 33, p.totlifeless); HoldsI16Reads(b, 35, p.step);
    HoldsI16Reads(b, 37, p.vision);
  }

  /** Slot `i` occupies bytes 39+12i .. 39+12i+12: a `Some` slot holds its six
      fields, a `None` slot stays zero; bytes 99..110 are always zero. */
  lemma EncodeSlotLayout(p: CharInfo, i: nat)
    requires i < SlotCount
    ensures var b := Encode(p);
      var j := LifelessBase + SlotSize * i;
      && b[j..j + SlotSize] == (match p.listlifeless[i]
           case Some(l) => LifelessBytes(l)
           case None => Zeros(SlotSize))
      && forall k :: WireExtent <= k < CharInfoSize ==> b[k] == 0
  {
    var b := Encode(p);
    var hd := Header(p);
    var j := SlotOffset(LifelessBase, i);
    HeaderTailZero(p);
    forall k | j <= k < j + SlotSize
      ensures b[k] == match p.listlifeless[i] case Some(l) => LifelessBytes(l)[k - j] case None => 0
    {
      PutSlotsRegion(hd, LifelessBase, p.listlifeless, SlotCount, i, k - j);
    }
    forall k | WireExtent <= k < CharInfoSize ensures b[k] == 0 {
      PutSlotsFrame(hd, LifelessBase, p.listlifeless, SlotCount, k);
    }
  }

  /** Decoding an encoding gives the record back with every `Some` of the
      all-zero slot turned into `None`. */
  lemma DecodeEncode(p: CharInfo)
    ensures Decode(Encode(p)) == p.(listlifeless := Normalize(p.listlifeless))
  {
    var b := Encode(p);
    EncodeFieldBytes(p);
    HoldsI16Reads(b, 0, p.x); HoldsI16Reads(b, 2, p.y); HoldsI16Reads(b, 4, p.w);
    HoldsI16Reads(b, 6, p.h); HoldsI16Reads(b, 8, p.a); HoldsI16Reads(b, 10, p.d);
    HoldsI16Reads(b, 12, p.d2); HoldsI16Reads(b, 14, p.dhit); HoldsI16Reads(b, 16, p.numchar);
    HoldsI16Reads(b, 18, p.idchar); HoldsI16Reads(b, 20, p.totchar); HoldsI16Reads(b, 22, p.totenemies);
    HoldsI16Reads(b, 25, p.healt); HoldsI16Reads(b, 27, p.stamina); HoldsI16Reads(b, 29, p.damage);
    HoldsI16Reads(b, 31, p.idmap); HoldsI16Reads(b, 33, p.totlifeless); HoldsI16Reads(b, 35, p.step);
    HoldsI16Reads(b, 37, p.vision);
    HeaderTailZero(p);
    SlotsDecodeNormalized(Header(p), LifelessBase, p.listlifeless);
  }

  /** The round trip is exact for every record without a `Some` all-zero slot. */
  lemma RoundTrip(p: CharInfo)
    requires !HasEmptySome(p.listlifeless)
    ensures Decode(Encode(p)) == p
  {
    DecodeEncode(p);
  }

  /** `Some(default)` and `None` encode to the same bytes, and both decode as `None`. */
  lemma EmptySomeIsNone(p: CharInfo, i: nat)
    requires i < SlotCount
    ensures Encode(p.(listlifeless := p.listlifeless[i := Some(EmptyLifeless)]))
         == Encode(p.(listlifeless := p.listlifeless[i := None]))
    ensures Decode(Encode(p.(listlifeless := p.listlifeless[i := Some(EmptyLifeless)]))).listlifeless[i] == None
  {
    var p1 := p.(listlifeless := p.listlifeless[i := Some(EmptyLifeless)]);
    assert Header(p1) == Header(p);
    HeaderTailZero(p);
    PutSlotsEmptySome(Header(p), LifelessBase, p.listlifeless, i, SlotCount);
    DecodeEncode(p1);
  }

  /** `exit` decodes as true only when byte 24 is exactly 1, and encoding
      writes `exit as u8` there. */
  lemma ExitByteRule(buf: seq<Byte>, p: CharInfo)
    requires |buf| >= WireExtent
    ensures Decode(buf).exit <==> buf[24] == 1
    ensures Encode(p)[24] == ExitByte(p.exit) && Decode(Encode(p)).exit == p.exit
  {
    EncodeFieldBytes(p);
  }
}
