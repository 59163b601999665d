/** Byte-level building blocks shared by the two copies of the character-state
    codec: bytes, signed 16-bit integers and their little-endian encoding
    (`i16::to_le_bytes` / `i16::from_le_bytes`), the `u16` frame size, and the
    12-byte "lifeless" sub-entity slot. */
module Wire {
  import opened Common

  type Byte = b: int | 0 <= b < 0x100
  type I16 = v: int | -0x8000 <= v < 0x8000
  type U16 = v: int | 0 <= v < 0x1_0000

  predicate InI16(v: int) { -0x8000 <= v < 0x8000 }

  /** An `as i16` cast: keeps the low 16 bits, read as two's complement. */
  function Wrap16(v: int): (r: I16)
    ensures InI16(v) ==> r == v
    ensures (r - v) % 0x1_0000 == 0
  {
    var u := v % 0x1_0000;
    if u >= 0x8000 then u - 0x1_0000 else u
  }

  /** The unsigned 16-bit pattern of a signed value. */
  function Bits16(v: I16): (u: U16)
  {
    if v < 0 then v + 0x1_0000 else v
  }

  function LowByte(v: I16): Byte { Bits16(v) % 0x100 }
  function HighByte(v: I16): Byte { Bits16(v) / 0x100 }

  /** `i16::to_le_bytes`. */
  function I16Le(v: I16): (b: seq<Byte>)
    ensures |b| == 2
  {
    [LowByte(v), HighByte(v)]
  }

  /** `i16::from_le_bytes`: the two bytes are the value's two's-complement
      bits, low byte first, and the sign is the top bit of the high byte. */
  function I16FromLe(lo: Byte, hi: Byte): (r: I16)
    ensures Bits16(r) == lo + 0x100 * hi
    ensures r < 0 <==> hi >= 0x80
  {
    var u := lo + 0x100 * hi;
    if u >= 0x8000 then u - 0x1_0000 else u
  }

  /** Decoding undoes encoding for every i16 ... */
  lemma I16LeRoundTrip(v: I16)
    ensures I16FromLe(LowByte(v), HighByte(v)) == v
  {
    var u := Bits16(v);
    assert LowByte(v) + 0x100 * HighByte(v) == u;
  }

  /** ... and encoding undoes decoding for every pair of bytes: the little-endian
      i16 encoding is a bijection between i16 values and byte pairs. */
  lemma I16LeOnto(lo: Byte, hi: Byte)
    ensures I16Le(I16FromLe(lo, hi)) == [lo, hi]
  {
    var v := I16FromLe(lo, hi);
    assert Bits16(v) == lo + 0x100 * hi;
  }

  /** `u16::to_le_bytes`. */
  function U16Le(v: U16): (b: seq<Byte>)
    ensures |b| == 2
  {
    [v % 0x100, v / 0x100]
  }

  /** `u16::from_le_bytes`: `lo` is the value's low byte and `hi` its high byte. */
  function U16FromLe(lo: Byte, hi: Byte): (r: U16)
    ensures r % 0x100 == lo && r / 0x100 == hi
  {
    lo + 0x100 * hi
  }

  lemma U16LeRoundTrip(v: U16)
    ensures U16FromLe(U16Le(v)[0], U16Le(v)[1]) == v
  {
  }

  function Zeros(n: nat): (z: seq<Byte>)
    ensures |z| == n && forall k :: 0 <= k < n ==> z[k] == 0
  {
    seq(n, _ => 0)
  }

  /** The buffer after `buf[off..off+2].copy_from_slice(&v.to_le_bytes())`. */
  function Put16(b: seq<Byte>, off: nat, v: I16): (r: seq<Byte>)
    requires off + 2 <= |b|
    ensures |r| == |b|
  {
    b[off := LowByte(v)][off + 1 := HighByte(v)]
  }

  /** `i16::from_le_bytes(buf[off..off+2])`. */
  function Get16(b: seq<Byte>, off: nat): I16
    requires off + 2 <= |b|
  {
    I16FromLe(b[off], b[off + 1])
  }

  /** `b` holds `v` little-endian at `off`. */
  predicate HoldsI16(b: seq<Byte>, off: nat, v: I16)
    requires off + 2 <= |b|
  {
    b[off] == LowByte(v) && b[off + 1] == HighByte(v)
  }

  lemma HoldsI16Reads(b: seq<Byte>, off: nat, v: I16)
    requires off + 2 <= |b| && HoldsI16(b, off, v)
    ensures b[off..off + 2] == I16Le(v) && Get16(b, off) == v
  {
    I16LeRoundTrip(v);
  }

  lemma GetPut16(b: seq<Byte>, off: nat, v: I16)
    requires off + 2 <= |b|
    ensures Get16(Put16(b, off, v), off) == v
  {
    I16LeRoundTrip(v);
  }

  /** Writes one i16 little-endian into a buffer in place. */
  method WriteI16(buf: array<Byte>, off: nat, v: I16)
    requires off + 2 <= buf.Length
    modifies buf
    ensures buf[..] == Put16(old(buf[..]), off, v)
  {
    buf[off] := LowByte(v);
    buf[off + 1] := HighByte(v);
  }

  // ---------------------------------------------------------------------
  // Lifeless slots

  const SlotCount := 5  // MAXCHARLIFELESS
  const SlotSize := 12  // size_of::<PacketLifelessInfo>()

  /** `PacketLifelessInfo`: an attached short-lived sub-entity. */
  datatype Lifeless = Lifeless(x: I16, y: I16, w: I16, h: I16, d: I16, damage: I16)

  /** `PacketLifelessInfo::default()`. */
  const EmptyLifeless := Lifeless(0, 0, 0, 0, 0, 0)

  /** `[Option<PacketLifelessInfo>; MAXCHARLIFELESS]`. */
  type Slots = s: seq<Option<Lifeless>> | |s| == SlotCount
    witness [None, None, None, None, None]

  const NoSlots: Slots := [None, None, None, None, None]

  /** The six fields of a slot written at offset `j`. */
  function PutLifeless(b: seq<Byte>, j: nat, l: Lifeless): (r: seq<Byte>)
    requires j + SlotSize <= |b|
    ensures |r| == |b|
  {
    var b1 := Put16(b, j, l.x);
    var b2 := Put16(b1, j + 2, l.y);
    var b3 := Put16(b2, j + 4, l.w);
    var b4 := Put16(b3, j + 6, l.h);
    var b5 := Put16(b4, j + 8, l.d);
    Put16(b5, j + 10, l.damage)
  }

  /** Writes a slot's six fields in place, as the `to_bytes` slot loop does. */
  method WriteLifeless(buf: array<Byte>, j: nat, l: Lifeless)
    requires j + SlotSize <= buf.Length
    modifies buf
    ensures buf[..] == PutLifeless(old(buf[..]), j, l)
  {
    WriteI16(buf, j, l.x);
    WriteI16(buf, j + 2, l.y);
    WriteI16(buf, j + 4, l.w);
    WriteI16(buf, j + 6, l.h);
    WriteI16(buf, j + 8, l.d);
    WriteI16(buf, j + 10, l.damage);
  }

  /** The six fields read from offset `j`: the slot each of whose fields is
      held little-endian at its place in the twelve bytes found there. */
  function GetLifeless(b: seq<Byte>, j: nat): (r: Lifeless)
    requires j + SlotSize <= |b|
    ensures HoldsI16(b, j, r.x) && HoldsI16(b, j + 2, r.y) && HoldsI16(b, j + 4, r.w)
    ensures HoldsI16(b, j + 6, r.h) && HoldsI16(b, j + 8, r.d) && HoldsI16(b, j + 10, r.damage)
  {
    I16LeOnto(b[j], b[j + 1]);
    I16LeOnto(b[j + 2], b[j + 3]);
    I16LeOnto(b[j + 4], b[j + 5]);
    I16LeOnto(b[j + 6], b[j + 7]);
    I16LeOnto(b[j + 8], b[j + 9]);
    I16LeOnto(b[j + 10], b[j + 11]);
    Lifeless(Get16(b, j), Get16(b, j + 2), Get16(b, j + 4),
             Get16(b, j + 6), Get16(b, j + 8), Get16(b, j + 10))
  }

  /** The bytes a slot's six fields are written as. */
  function LifelessBytes(l: Lifeless): (r: seq<Byte>)
    ensures |r| == SlotSize
  {
    I16Le(l.x) + I16Le(l.y) + I16Le(l.w) + I16Le(l.h) + I16Le(l.d) + I16Le(l.damage)
  }

  /** Writing a slot puts exactly its twelve bytes at `j` and nothing else changes. */
  lemma PutLifelessBytes(b: seq<Byte>, j: nat, l: Lifeless)
    requires j + SlotSize <= |b|
    ensures forall t :: 0 <= t < SlotSize ==> PutLifeless(b, j, l)[j + t] == LifelessBytes(l)[t]
    ensures forall k :: 0 <= k < |b| && !(j <= k < j + SlotSize) ==> PutLifeless(b, j, l)[k] == b[k]
  {
  }

  /** A slot read depends only on the slot's twelve bytes. */
  lemma GetLifelessLocal(b: seq<Byte>, c: seq<Byte>, j: nat)
    requires j + SlotSize <= |b| && j + SlotSize <= |c|
    requires forall k :: j <= k < j + SlotSize ==> b[k] == c[k]
    ensures GetLifeless(b, j) == GetLifeless(c, j)
  {
  }

  lemma GetPutLifeless(b: seq<Byte>, j: nat, l: Lifeless)
    requires j + SlotSize <= |b|
    ensures GetLifeless(PutLifeless(b, j, l), j) == l
  {
    I16LeRoundTrip(l.x); I16LeRoundTrip(l.y); I16LeRoundTrip(l.w);
    I16LeRoundTrip(l.h); I16LeRoundTrip(l.d); I16LeRoundTrip(l.damage);
  }

  /** Twelve zero bytes read back as the default slot. */
  lemma GetLifelessZero(b: seq<Byte>, j: nat)
    requires j + SlotSize <= |b|
    requires forall k :: j <= k < j + SlotSize ==> b[k] == 0
    ensures GetLifeless(b, j) == EmptyLifeless
  {
  }

  /** Slot `i`'s offset in a layout whose slot area starts at `base`. */
  function SlotOffset(base: nat, i: nat): nat
  {
    base + SlotSize * i
  }

  /** The buffer after the `to_bytes` loop has handled slots `0..n`: a `Some`
      slot writes its fields, a `None` slot writes nothing. */
  function PutSlots(b: seq<Byte>, base: nat, slots: Slots, n: nat): (r: seq<Byte>)
    requires n <= SlotCount && base + SlotSize * SlotCount <= |b|
    ensures |r| == |b|
  {
    if n == 0 then b
    else
      var prev := PutSlots(b, base, slots, n - 1);
      match slots[n - 1]
      case None => prev
      case Some(l) => PutLifeless(prev, SlotOffset(base, n - 1), l)
  }

  /** The slot loop only writes inside the slot area, and inside it only the
      regions of the slots handled so far. */
  lemma {:induction false} PutSlotsFrame(b: seq<Byte>, base: nat, slots: Slots, n: nat, k: nat)
    requires n <= SlotCount && base + SlotSize * SlotCount <= |b| && k < |b|
    requires k < base || k >= SlotOffset(base, n)
    ensures PutSlots(b, base, slots, n)[k] == b[k]
  {
    if n > 0 {
      PutSlotsFrame(b, base, slots, n - 1, k);
      if slots[n - 1].Some? {
        PutLifelessBytes(PutSlots(b, base, slots, n - 1), SlotOffset(base, n - 1), slots[n - 1].value);
      }
    }
  }

  /** After the loop, a byte of slot `i`'s region holds that slot's fields for a
      `Some` slot and is left as it was (zero in a fresh buffer) for a `None` slot. */
  lemma {:induction false} PutSlotsRegion(b: seq<Byte>, base: nat, slots: Slots, n: nat, i: nat, t: nat)
    requires n <= SlotCount && base + SlotSize * SlotCount <= |b| && i < n && t < SlotSize
    ensures PutSlots(b, base, slots, n)[SlotOffset(base, i) + t]
         == match slots[i] case Some(l) => LifelessBytes(l)[t] case None => b[SlotOffset(base, i) + t]
  {
    var j := SlotOffset(base, i);
    var prev := PutSlots(b, base, slots, n - 1);
    if i == n - 1 {
      PutSlotsFrame(b, base, slots, n - 1, j + t);
      if slots[i].Some? {
        PutLifelessBytes(prev, j, slots[i].value);
      }
    } else {
      PutSlotsRegion(b, base, slots, n - 1, i, t);
      if slots[n - 1].Some? {
        PutLifelessBytes(prev, SlotOffset(base, n - 1), slots[n - 1].value);
      }
    }
  }

  /** `from_bytes`'s rule for one slot: a slot whose six values are all zero
      reads as `None`. */
  function DecodeSlot(b: seq<Byte>, j: nat): (r: Option<Lifeless>)
    requires j + SlotSize <= |b|
    ensures r.None? <==> GetLifeless(b, j) == EmptyLifeless
    ensures r.Some? ==> r.value == GetLifeless(b, j)
  {
    var l := GetLifeless(b, j);
    if l != EmptyLifeless then Some(l) else None
  }

  /** All five slots as `from_bytes` fills them. */
  function DecodeSlots(b: seq<Byte>, base: nat): (r: Slots)
    requires base + SlotSize * SlotCount <= |b|
    ensures forall i :: 0 <= i < SlotCount ==> r[i] == DecodeSlot(b, SlotOffset(base, i))
  {
    seq(SlotCount, i requires 0 <= i < SlotCount => DecodeSlot(b, SlotOffset(base, i)))
  }

  /** A slot that is `Some` of the all-zero record: the one shape the wire cannot carry. */
  predicate HasEmptySome(slots: Slots)
  {
    exists i :: 0 <= i < SlotCount && slots[i] == Some(EmptyLifeless)
  }

  /** Decoding the slot area of a buffer that was zero there before the slot
      loop recovers every slot, provided no slot is `Some` of the all-zero record. */
  lemma SlotsRoundTrip(b: seq<Byte>, base: nat, slots: Slots)
    requires base + SlotSize * SlotCount <= |b|
    requires forall k :: base <= k < base + SlotSize * SlotCount ==> b[k] == 0
    requires !HasEmptySome(slots)
    ensures DecodeSlots(PutSlots(b, base, slots, SlotCount), base) == slots
  {
    var r := PutSlots(b, base, slots, SlotCount);
    var d := DecodeSlots(r, base);
    forall i | 0 <= i < SlotCount ensures d[i] == slots[i] {
      SlotDecodes(b, base, slots, i);
    }
  }

  /** Slot `i` of an encoded buffer decodes to the slot itself, except that
      `Some` of the all-zero record comes back as `None`. */
  lemma SlotDecodes(b: seq<Byte>, base: nat, slots: Slots, i: nat)
    requires base + SlotSize * SlotCount <= |b| && i < SlotCount
    requires forall k :: base <= k < base + SlotSize * SlotCount ==> b[k] == 0
    ensures DecodeSlot(PutSlots(b, base, slots, SlotCount), SlotOffset(base, i))
         == if slots[i] == Some(EmptyLifeless) then None else slots[i]
  {
    var r := PutSlots(b, base, slots, SlotCount);
    var j := SlotOffset(base, i);
    match slots[i]
    case None =>
      forall k | j <= k < j + SlotSize ensures r[k] == 0 {
        PutSlotsRegion(b, base, slots, SlotCount, i, k - j);
      }
      GetLifelessZero(r, j);
    case Some(l) =>
      var p := PutLifeless(b, j, l);
      PutLifelessBytes(b, j, l);
      forall k | j <= k < j + SlotSize ensures r[k] == p[k] {
        PutSlotsRegion(b, base, slots, SlotCount, i, k - j);
      }
      GetLifelessLocal(r, p, j);
      GetPutLifeless(b, j, l);
  }

  /** `from_bytes` turns `Some` of the all-zero record into `None`; every other slot is kept. */
  function Normalize(slots: Slots): (r: Slots)
    ensures forall i :: 0 <= i < SlotCount ==>
      r[i] == if slots[i] == Some(EmptyLifeless) then None else slots[i]
    ensures !HasEmptySome(slots) ==> r == slots
  {
    seq(SlotCount, i requires 0 <= i < SlotCount =>
      if slots[i] == Some(EmptyLifeless) then None else slots[i])
  }

  /** Decoding an encoded slot area gives back the slots, normalized. */
  lemma SlotsDecodeNormalized(b: seq<Byte>, base: nat, slots: Slots)
    requires base + SlotSize * SlotCount <= |b|
    requires forall k :: base <= k < base + SlotSize * SlotCount ==> b[k] == 0
    ensures DecodeSlots(PutSlots(b, base, slots, SlotCount), base) == Normalize(slots)
  {
    var d := DecodeSlots(PutSlots(b, base, slots, SlotCount), base);
    forall i | 0 <= i < SlotCount ensures d[i] == Normalize(slots)[i] {
      SlotDecodes(b, base, slots, i);
    }
  }

  lemma PutEmptyOnZero(b: seq<Byte>, j: nat)
    requires j + SlotSize <= |b|
    requires forall k :: j <= k < j + SlotSize ==> b[k] == 0
    ensures PutLifeless(b, j, EmptyLifeless) == b
  {
  }

  /** Writing the all-zero record into a zero region changes nothing, so on the
      wire `Some(default)` and `None` are the same bytes. */
  lemma {:induction false} PutSlotsEmptySome(b: seq<Byte>, base: nat, slots: Slots, i: nat, n: nat)
    requires n <= SlotCount && base + SlotSize * SlotCount <= |b| && i < SlotCount
    requires forall k :: base <= k < base + SlotSize * SlotCount ==> b[k] == 0
    ensures PutSlots(b, base, slots[i := Some(EmptyLifeless)], n) == PutSlots(b, base, slots[i := None], n)
  {
    var s1 := slots[i := Some(EmptyLifeless)];
    var s0 := slots[i := None];
    if n > 0 {
      PutSlotsEmptySome(b, base, slots, i, n - 1);
      var prev := PutSlots(b, base, s0, n - 1);
      assert PutSlots(b, base, s1, n - 1) == prev;
      if n - 1 == i {
        var j := SlotOffset(base, i);
        forall k | j <= k < j + SlotSize ensures prev[k] == 0 {
          PutSlotsFrame(b, base, s0, n - 1, k);
        }
        PutEmptyOnZero(prev, j);
        var r := prev;
        assert PutSlots(b, base, s1, n) == r;
        assert PutSlots(b, base, s0, n) == prev;
      } else {
        assert s1[n - 1] == s0[n - 1];
      }
    }
  }
}
