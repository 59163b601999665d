# Heredian: a verified model of the game's wire codec, server rules and configuration files

Heredian is a small multiplayer action game. A TCP server owns the enemies and
the session table, and clients draw the map. Both sides exchange one fixed-size
record, `PacketCharInfo`, as raw little-endian bytes. This project models the
parts of the game that carry logic, and proves what they promise:

- `Common` (common.dfy): the vector operations the server relies on
  (`position`, `swap`, `remove`) and the pairing of two index-aligned vectors.
- `Wire` (wire.dfy): i16/u16 little-endian conversions, `as i16` casts, and the
  five `Option<PacketLifelessInfo>` slots shared by both codecs.
- `HeredianLib` (lib.dfy): the constants of heredian-lib/src/lib.rs and its copy
  of the record codec. That copy has the extra `d2` field and is 110 bytes long.
- `Net` (net.dfy): the codec of heredian-lib/src/net.rs (no `d2`, 108 bytes),
  the `Packet` frame ("GDP", size, payload) and the send side of `Server`.
- `Combat` (combat.dfy): `hit`, `dir_damage`, `damage_char`, target selection
  and the per-enemy step of `game_loop` in heredian-server/src/main.rs, as
  functions from a record to the updated record.
- `GameServer` (server.dfy): the session table `Ambients` as a class. Its
  methods model connecting, disconnecting, `on_message`, the enemy broadcasts,
  one `game_loop` cycle and the `recv_once` dispatch. The class invariant says:
  - the two player vectors stay index-aligned;
  - player ids are distinct and above every enemy id;
  - no stored player record carries damage or lifeless slots.
- `FileManager` (file_manager.dfy): `ConfigFile::load` over the lines of a
  `key=value` file, with comments cut at `;` or `#`, `NULL` values skipped and
  the panic on a line without `=`. Also `get_string`, and `get` at type `i32`.
- `Structs` (structs.dfy): the client's `Sprite::from_config` (the sprite
  table, built with `push_front`) and `InfoChar::from_config`.

Main results:

- Decoding an encoded record gives it back in both codecs (`RoundTrip`). The
  exception is a slot holding `Some` of the all-zero slot, which comes back as
  `None` (`DecodeEncode`, `EmptySomeIsNone`).
- A frame decodes to its own signature and size (`Net.PacketRoundTrip`).
- Every server operation keeps the session table well-formed.
- A dead enemy is always marked and removed on the next cycle.
- All bosses share one lock counter in 0..20.
- A loaded configuration holds, for each key, the value of its last
  non-`NULL` line (`FoldIsLastWriter`).
- The sprite table has rows 3, 2, 1, 0 in that order, with the documented
  `first`/`last` flags.

Three behaviours of the code are modelled as written:

- **A stored player record never gets damage or slots.** `on_message` copies a
  packet's map, and only while the stored health is 0 its health, position
  and sprite. It never copies `damage` or `listlifeless`, so a player's attack
  passes never land. The class invariant `Ambients.Valid` records this.
- **`Packet::from_bytes` does not check the "GDP" signature.** The frame is
  decoded whatever its first three bytes are.
- **`hit` pushes a RIGHT hit down.** It moves the target by `y += 3`, exactly
  like a DOWN hit. The model keeps this.

## Model

| member | source | states |
|---|---|---|
| Common.IndexOf | heredian-server/src/main.rs:135 | `position`: none iff the value is absent; otherwise the first index holding it |
| Common.Swap | heredian-server/src/main.rs:164-165 | `Vec::swap`: the two entries are exchanged, every other entry is kept, the length is unchanged |
| Common.RemoveAt | heredian-server/src/main.rs:138-139 | `Vec::remove`: the entries before the index are kept, the ones after shift down by one |
| Common.Zip | heredian-server/src/main.rs:20-22 | pairs the address vector with the record vector index by index |
| Common.SwapMultiset | heredian-server/src/main.rs:164-165 | swapping keeps the same multiset of entries |
| Common.ZipSwap | heredian-server/src/main.rs:164-165 | swapping both vectors at the same indices swaps the pairs, so no address is re-paired |
| Common.ZipRemoveAt | heredian-server/src/main.rs:137-140 | removing the same index from both vectors removes exactly that pair |
| Common.SwapDistinct | heredian-server/src/main.rs:164 | swapping keeps distinct entries distinct |
| Common.RemoveAtDistinct | heredian-server/src/main.rs:138-139 | removing an entry keeps distinct entries distinct |
| Wire.Wrap16 | heredian-server/src/main.rs:100-101 | `as i16`: the result is in i16 range, is congruent to the input mod 2^16, and equals the input when it already fits |
| Wire.I16Le | heredian-lib/src/net.rs:158-176 | `to_le_bytes` gives two bytes; the round-trip lemmas below say what they hold |
| Wire.I16LeRoundTrip | heredian-lib/src/net.rs:130-176 | `from_le_bytes` undoes `to_le_bytes` for every i16 |
| Wire.I16LeOnto | heredian-lib/src/net.rs:130-148 | `to_le_bytes` undoes `from_le_bytes` for every byte pair (the encoding is a bijection) |
| Wire.I16FromLe | heredian-lib/src/net.rs:130 | `i16::from_le_bytes`: the two bytes are the value's two's-complement bits, low byte first; the value is negative iff the high byte's top bit is set |
| Wire.U16FromLe | heredian-lib/src/net.rs:52 | `u16::from_le_bytes`: the first byte is the value's low byte and the second its high byte |
| Wire.U16Le | heredian-lib/src/net.rs:65 | `u16::to_le_bytes` gives two bytes; `U16LeRoundTrip` says what they hold |
| Wire.U16LeRoundTrip | heredian-lib/src/net.rs:52-65 | `u16::from_le_bytes` undoes `to_le_bytes` |
| Wire.Zeros | heredian-lib/src/net.rs:156 | `vec![0u8; n]`: n bytes, all zero |
| Wire.Put16 | heredian-lib/src/net.rs:158 | `buf[off..off+2].copy_from_slice` keeps the length; `GetPut16` and `HoldsI16Reads` say what it writes |
| Wire.HoldsI16Reads | heredian-lib/src/net.rs:130 | two bytes holding a value are its `to_le_bytes` and read back as that value |
| Wire.GetPut16 | heredian-lib/src/net.rs:130-158 | a 16-bit write reads back as the value written |
| Wire.WriteI16 | heredian-lib/src/net.rs:158-176 | the in-place write leaves the array equal to `Put16` of its old contents |
| Wire.PutLifeless | heredian-lib/src/net.rs:180-186 | a slot write keeps the length; `PutLifelessBytes` says what it writes |
| Wire.WriteLifeless | heredian-lib/src/net.rs:180-186 | the in-place slot write equals `PutLifeless` of the old contents |
| Wire.LifelessBytes | heredian-lib/src/net.rs:181-186 | a slot encodes as twelve bytes |
| Wire.PutLifelessBytes | heredian-lib/src/net.rs:180-186 | writing a slot puts exactly its twelve bytes at j and keeps every other byte |
| Wire.GetLifelessLocal | heredian-lib/src/net.rs:115-122 | reading a slot depends only on its twelve bytes |
| Wire.GetPutLifeless | heredian-lib/src/net.rs:115-186 | a written slot reads back as itself |
| Wire.GetLifelessZero | heredian-lib/src/net.rs:115-126 | twelve zero bytes read as the all-zero slot |
| Wire.PutSlots | heredian-lib/src/net.rs:178-188 | the slot loop keeps the length; `PutSlotsFrame` and `PutSlotsRegion` say what it writes |
| Wire.PutSlotsFrame | heredian-lib/src/net.rs:178-188 | the loop writes only the regions of the slots handled so far |
| Wire.PutSlotsRegion | heredian-lib/src/net.rs:178-188 | after the loop a `Some` slot's region holds its bytes and a `None` slot's region is unchanged |
| Wire.GetLifeless | heredian-lib/src/net.rs:115-122 | each of the six fields read at an offset is held little-endian at its own place in the twelve bytes there |
| Wire.DecodeSlot | heredian-lib/src/net.rs:113-126 | a slot whose six values are all zero reads as `None`, any other as `Some` of them |
| Wire.DecodeSlots | heredian-lib/src/net.rs:110-127 | five slots, slot i decoded from offset base + 12i |
| Wire.SlotsRoundTrip | heredian-lib/src/net.rs:110-188 | decoding the encoded slots gives them back when none is `Some` of the all-zero slot |
| Wire.SlotDecodes | heredian-lib/src/net.rs:110-188 | each encoded slot decodes to itself, except `Some` of the all-zero slot, which decodes to `None` |
| Wire.Normalize | heredian-lib/src/net.rs:124-126 | `Some` of the all-zero slot becomes `None`; every other slot is kept |
| Wire.SlotsDecodeNormalized | heredian-lib/src/net.rs:110-188 | decoding the encoded slots gives the normalized slots |
| Wire.PutEmptyOnZero | heredian-lib/src/net.rs:179-187 | writing the all-zero slot over zero bytes changes nothing |
| Wire.PutSlotsEmptySome | heredian-lib/src/net.rs:178-188 | `Some(default)` and `None` give the same bytes |
| HeredianLib.DirectionBits | heredian-lib/src/lib.rs:13-20 | each base direction is one bit, no two share a bit, each diagonal is the OR (sum) of its two parts |
| HeredianLib.PutFieldsA | heredian-lib/src/lib.rs:122-127 | the writes keep the buffer length; `PutFieldsABytes` says what they write |
| HeredianLib.PutFieldsB | heredian-lib/src/lib.rs:128-134 | the writes keep the buffer length; `PutFieldsBBytes` says what they write |
| HeredianLib.PutFieldsC | heredian-lib/src/lib.rs:135-141 | the writes keep the buffer length; `PutFieldsCBytes` says what they write |
| HeredianLib.Header | heredian-lib/src/lib.rs:120-141 | the buffer after the field writes is 110 bytes |
| HeredianLib.PutFieldsABytes | heredian-lib/src/lib.rs:122-127 | the written bytes are each field's little-endian pair |
| HeredianLib.PutFieldsBBytes | heredian-lib/src/lib.rs:128-134 | the written bytes are each field's pair, and byte 24 is the exit byte |
| HeredianLib.PutFieldsCBytes | heredian-lib/src/lib.rs:135-141 | the written bytes are each field's little-endian pair |
| HeredianLib.Encode | heredian-lib/src/lib.rs:119-156 | `to_bytes` gives 110 bytes; the layout lemmas say what they hold |
| HeredianLib.WriteFieldsA | heredian-lib/src/lib.rs:122-127 | the in-place writes equal `PutFieldsA` of the old contents |
| HeredianLib.WriteFieldsB | heredian-lib/src/lib.rs:128-134 | the in-place writes equal `PutFieldsB` of the old contents |
| HeredianLib.WriteFieldsC | heredian-lib/src/lib.rs:135-141 | the in-place writes equal `PutFieldsC` of the old contents |
| HeredianLib.ToBytes | heredian-lib/src/lib.rs:119-156 | the imperative `to_bytes` returns `Encode` of the record |
| HeredianLib.FromBytes | heredian-lib/src/lib.rs:72-115 | the imperative `from_bytes` (slot loop into an array, then the field reads) returns `Decode` of the buffer: every field at its offset, exit as byte 24 == 1, the slots from byte 39 |
| HeredianLib.Decode | heredian-lib/src/lib.rs:72-115 | `exit` is true iff byte 24 is exactly 1; no decoded slot is `Some` of the all-zero record |
| HeredianLib.HeaderTailZero | heredian-lib/src/lib.rs:120-141 | the field writes leave the slot area and the tail zero |
| HeredianLib.HeaderBytes | heredian-lib/src/lib.rs:122-141 | the buffer's bytes below 39, field by field |
| HeredianLib.EncodeKeepsHeader | heredian-lib/src/lib.rs:143-153 | the slot loop keeps every byte below 39 |
| HeredianLib.EncodeFieldBytes | heredian-lib/src/lib.rs:122-141 | the encoding's bytes below 39, field by field |
| HeredianLib.EncodeLayout | heredian-lib/src/lib.rs:122-141 | each field sits little-endian at its fixed offset, with d2 at 12..14 and exit at 24 |
| HeredianLib.EncodeSlotLayout | heredian-lib/src/lib.rs:143-153 | slot i occupies bytes 39+12i..39+12i+12: a `Some` slot holds its fields and a `None` slot is zero |
| HeredianLib.DecodeEncode | heredian-lib/src/lib.rs:72-156 | decoding an encoding gives the record back with its slots normalized |
| HeredianLib.RoundTrip | heredian-lib/src/lib.rs:72-156 | the round trip is exact for every record with no `Some` all-zero slot |
| HeredianLib.EmptySomeIsNone | heredian-lib/src/lib.rs:87-153 | `Some(default)` and `None` encode to the same bytes and both decode as `None` |
| HeredianLib.ExitByteRule | heredian-lib/src/lib.rs:105-134 | exit decodes as true iff byte 24 is exactly 1; encoding writes 1 or 0 |
| Net.PutFieldsA | heredian-lib/src/net.rs:158-163 | the writes keep the buffer length; `PutFieldsABytes` says what they write |
| Net.PutFieldsB | heredian-lib/src/net.rs:164-169 | the writes keep the buffer length; `PutFieldsBBytes` says what they write |
| Net.PutFieldsC | heredian-lib/src/net.rs:170-176 | the writes keep the buffer length; `PutFieldsCBytes` says what they write |
| Net.Header | heredian-lib/src/net.rs:156-176 | the buffer after the field writes is 108 bytes |
| Net.PutFieldsABytes | heredian-lib/src/net.rs:158-163 | the written bytes are each field's little-endian pair |
| Net.PutFieldsBBytes | heredian-lib/src/net.rs:164-169 | the written bytes are each field's pair, and byte 22 is the exit byte |
| Net.PutFieldsCBytes | heredian-lib/src/net.rs:170-176 | the written bytes are each field's little-endian pair |
| Net.Encode | heredian-lib/src/net.rs:155-191 | `to_bytes` gives 108 bytes; the layout lemmas say what they hold |
| Net.WriteFieldsA | heredian-lib/src/net.rs:158-163 | the in-place writes equal `PutFieldsA` of the old contents |
| Net.WriteFieldsB | heredian-lib/src/net.rs:164-169 | the in-place writes equal `PutFieldsB` of the old contents |
| Net.WriteFieldsC | heredian-lib/src/net.rs:170-176 | the in-place writes equal `PutFieldsC` of the old contents |
| Net.ToBytes | heredian-lib/src/net.rs:155-191 | the imperative `to_bytes` returns `Encode` of the record |
| Net.FromBytes | heredian-lib/src/net.rs:109-151 | the imperative `from_bytes` (slot loop into an array, then the field reads) returns `Decode` of the buffer: every field at its offset, exit as byte 22 == 1, the slots from byte 37 |
| Net.Decode | heredian-lib/src/net.rs:109-151 | `exit` is true iff byte 22 is exactly 1; no decoded slot is `Some` of the all-zero record |
| Net.HeaderTailZero | heredian-lib/src/net.rs:156-176 | the field writes leave the slot area and the tail zero |
| Net.HeaderBytes | heredian-lib/src/net.rs:158-176 | the buffer's bytes below 37, field by field |
| Net.EncodeKeepsHeader | heredian-lib/src/net.rs:178-188 | the slot loop keeps every byte below 37 |
| Net.EncodeFieldBytes | heredian-lib/src/net.rs:158-176 | the encoding's bytes below 37, field by field |
| Net.EncodeLayout | heredian-lib/src/net.rs:158-176 | each field sits little-endian at its fixed offset and exit is the one byte at 22 |
| Net.EncodeSlotLayout | heredian-lib/src/net.rs:178-188 | slot i occupies bytes 37+12i..37+12i+12: a `Some` slot holds its fields and a `None` slot is zero |
| Net.DecodeEncode | heredian-lib/src/net.rs:109-191 | decoding an encoding gives the record back with its slots normalized |
| Net.RoundTrip | heredian-lib/src/net.rs:109-191 | the round trip is exact for every record with no `Some` all-zero slot |
| Net.EmptySomeIsNone | heredian-lib/src/net.rs:124-187 | `Some(default)` and `None` encode to the same bytes and both decode as `None` |
| Net.ExitByteRule | heredian-lib/src/net.rs:141-169 | exit decodes as true iff byte 22 is exactly 1; encoding writes 1 or 0 |
| Net.NewPacket | heredian-lib/src/net.rs:36-42 | `Packet::new`: signature "GDP", size 114 (the struct's size), the record as data |
| Net.FrameBytes | heredian-lib/src/net.rs:62-69 | a frame is 114 bytes; `NewPacketFrame` and `PacketRoundTrip` say what they hold |
| Net.WriteFrameHeader | heredian-lib/src/net.rs:64-65 | the in-place writes put the signature at 0..3 and the size at 3..5, and keep the rest |
| Net.WritePayload | heredian-lib/src/net.rs:66 | the payload copy fills bytes 5..113 and keeps the rest |
| Net.PacketToBytes | heredian-lib/src/net.rs:62-69 | the imperative `to_bytes` returns `FrameBytes` of the packet |
| Net.PacketFromBytes | heredian-lib/src/net.rs:49-55 | the signature is bytes 0..3, taken unchecked |
| Net.NewPacketFrame | heredian-lib/src/net.rs:36-69 | a new packet's frame is 114 bytes: "GDP", then 114 little-endian, then the record's encoding, then a zero byte |
| Net.PacketRoundTrip | heredian-lib/src/net.rs:49-69 | a frame decodes to its own signature and size, and to its record with the slots normalized |
| Net.DecodePrefix | heredian-lib/src/net.rs:109-151 | `from_bytes` depends only on the first 97 bytes, so trailing bytes never change the record |
| Net.CheckSend | heredian-lib/src/net.rs:303-306 | `Accepted` is refused; every other message passes unchanged |
| Net.Server.constructor | heredian-lib/src/net.rs:297-301 | a new server has sent nothing |
| Net.Server.Send | heredian-lib/src/net.rs:303-309 | a message other than `Accepted` is appended to the outgoing queue |
| Combat.OnlyHitFieldsTrans | heredian-server/src/main.rs:117-132 | two hits change only health, dhit and position, like one |
| Combat.Hit | heredian-server/src/main.rs:117-132 | inside the box: health falls by the damage, dhit is set and the knockback applied; outside: unchanged |
| Combat.RightHitPushesDown | heredian-server/src/main.rs:125-128 | a RIGHT hit moves the target exactly as a DOWN hit does |
| Combat.HitDoesNotFloor | heredian-server/src/main.rs:121 | health can go below zero |
| Combat.RollPasses | heredian-server/src/main.rs:208-210 | with truncating `%` the attack goes through iff the roll is non-negative and its last digit is 4 or more |
| Combat.DirDamage | heredian-server/src/main.rs:207-222 | a failed roll leaves the target alone; otherwise it is `Hit` at the middle of the attacker's facing edge |
| Combat.TruncHalfBetween | heredian-server/src/main.rs:213 | the truncated midpoint lies between the two ends |
| Combat.AimX | heredian-server/src/main.rs:212-221 | the aim point's x lies within the attacker's horizontal extent |
| Combat.AimY | heredian-server/src/main.rs:212-221 | the aim point's y lies within the attacker's vertical extent |
| Combat.AimOnFacingEdge | heredian-server/src/main.rs:212-221 | the aim point lies on the attacker's own box, on the edge it faces |
| Combat.DamageChar | heredian-server/src/main.rs:224-232 | with positive damage every target on the attacker's map gets `DirDamage`; everyone else, and all targets when damage <= 0, is unchanged |
| Combat.Dist2Facts | heredian-server/src/main.rs:245-247 | the distance is symmetric, zero iff the positions coincide, and at least the distance along either axis |
| Combat.SquareRoot | heredian-server/src/main.rs:280 | comparing squares against `vision * vision` bounds the distance by `vision` |
| Combat.InVision | heredian-server/src/main.rs:280 | a client in sight is within `vision` of the enemy along each axis |
| Combat.FarthestIn | heredian-server/src/main.rs:269-277 | the `max_by` fold over the first n clients: none iff none of them shares the enemy's map, otherwise a same-map index below n |
| Combat.FarthestInIsFarthest | heredian-server/src/main.rs:269-277 | the fold's pick is the farthest same-map client, the last of them on a tie |
| Combat.Farthest | heredian-server/src/main.rs:269-279 | none iff no client shares the enemy's map, otherwise a same-map client |
| Combat.FarthestIsFarthest | heredian-server/src/main.rs:269-277 | the chosen client meets the reference definition `IsFarthest` |
| Combat.FarthestUnique | heredian-server/src/main.rs:277 | at most one index meets `IsFarthest` |
| Combat.Collided | heredian-server/src/main.rs:456-462 | off the top or left edge or past the bottom is a collision; inside those bounds (the right edge is not checked) only the pixel test decides |
| Combat.OverlapSymmetric | heredian-server/src/main.rs:287-294 | the hit test is symmetric, and a box of non-negative size touches itself |
| Combat.MoveX | heredian-server/src/main.rs:352-390 | the x-axis move changes only x and the facing; toward a target on the right it gains `step`, or 1 when a wall rolls it back; it ends facing a base direction |
| Combat.MoveY | heredian-server/src/main.rs:392-430 | the y-axis move changes only y and the facing; toward a target below it gains `step`, or loses it when a wall pushes it back; it ends facing a base direction |
| Combat.BossStrike | heredian-server/src/main.rs:299-350 | the boss changes only its action (set to 3), position and facing, and ends facing a base direction |
| Combat.SaneAttackIsSafe | heredian-server/src/main.rs:287-296 | a bounded enemy's attack on a bounded client stays within i16 |
| Combat.DirDamageKeepsSane | heredian-server/src/main.rs:207-222 | a client with fewer than the bound of hits stays bounded with one hit more |
| Combat.ChaseTurn | heredian-server/src/main.rs:280-434 | with a target in sight the client count is kept, clients change only in hit fields, and the enemy keeps its id, map and health |
| Combat.EnemyTurn | heredian-server/src/main.rs:261-445 | one enemy's step keeps the client count, changes clients only in hit fields, and keeps the enemy's id, map and health |
| Combat.DeadEnemyExits | heredian-server/src/main.rs:265-266 | a dead enemy is marked exit, does not move and is still sent |
| Combat.SilentTurns | heredian-server/src/main.rs:262-437 | a living enemy stays silent iff no client shares its map or it is a boss waiting for the lock; it never sets exit |
| Combat.OutOfVisionIdles | heredian-server/src/main.rs:432-434 | a target out of sight only sets a = 0 |
| Combat.OnlyTargetIsHit | heredian-server/src/main.rs:293-296 | only the chased client can change, and only when the boxes touch |
| Combat.BossLock | heredian-server/src/main.rs:299-350 | a positive lock only counts down and silences the boss; at zero the boss strikes and the lock becomes 20 |
| Combat.BossStrikeMoves | heredian-server/src/main.rs:307-348 | a striking boss moves at most `step` along one axis, and not at all when next to the target |
| Combat.TurnKeepsInvariants | heredian-server/src/main.rs:299-350 | every step keeps the enemy facing a base direction and the lock in 0..20 |
| Combat.TurnKeepsClientSane | heredian-server/src/main.rs:293-296 | one step hits a client at most once |
| Combat.EnemyTurnOk | heredian-server/src/main.rs:261-445 | a step keeps the client count and ids, touches only hit fields, marks dead enemies, keeps the facing and the lock range |
| Combat.RightRollbackGainsOne | heredian-server/src/main.rs:353-359 | a blocked right step ends one unit right of the start |
| Combat.LeftMoveRule | heredian-server/src/main.rs:370-379 | a left step happens only beyond two steps, and a blocked one ends one step right of the start |
| Combat.FreeMoveCloses | heredian-server/src/main.rs:352-399 | with no wall the enemy closes in by `step` on each axis where the target lies right or below |
| Combat.DownRollback | heredian-server/src/main.rs:393-399 | a blocked down step ends one step above the start |
| Combat.UpMoveRule | heredian-server/src/main.rs:410-420 | an up step happens only beyond two steps, and a blocked one is pushed back down by two steps |
| Combat.MoveXFacing | heredian-server/src/main.rs:361-369 | after the x-axis move the enemy faces LEFT when dx > dy (even after a right step), otherwise up or down toward the target |
| Combat.MoveYFacing | heredian-server/src/main.rs:401-408 | after the y-axis move the enemy faces along y toward the target when dy > dx, otherwise along x toward it |
| Combat.TargetIsAttacked | heredian-server/src/main.rs:287-296 | when the boxes touch the chased client alone gets the enemy's `dir_damage` (with a = 1); otherwise no client changes |
| GameServer.Ids | heredian-server/src/main.rs:161 | the idchar of each record, in order |
| GameServer.Directs | heredian-server/src/main.rs:96-104 | one `Direct` to the address per enemy, in order |
| GameServer.Broadcasts | heredian-server/src/main.rs:106-114 | one `Broadcast` per enemy, in order |
| GameServer.NewClient | heredian-server/src/main.rs:146-150 | the new record carries the new id and the client count; every other field is the default |
| GameServer.StampFields | heredian-server/src/main.rs:100-101 | a stamped record gets the two counts as i16 and nothing else changes; stamping is idempotent |
| GameServer.Retain | heredian-server/src/main.rs:255 | an enemy is kept iff it is not marked exit; the result is no longer than the input |
| GameServer.RetainSingle | heredian-server/src/main.rs:255 | one enemy is kept iff it is not marked exit |
| GameServer.RetainAppend | heredian-server/src/main.rs:255 | `retain` distributes over concatenation, so it keeps the survivors in their order |
| GameServer.RetainMultiset | heredian-server/src/main.rs:255 | every enemy not marked exit keeps all its occurrences; none marked exit remains |
| GameServer.Max0 | heredian-server/src/main.rs:202 | `max(0)`: the result is non-negative, at least the input, and either the input or 0 |
| GameServer.LifelessChar | heredian-server/src/main.rs:186-195 | the attacker for a slot: the slot's box, facing and damage, map 0, every other field default |
| GameServer.SyncRecord | heredian-server/src/main.rs:172-202 | counts and map from the packet; health, position and sprite from it only while the stored health is 0; health floored at 0 |
| GameServer.AnchorOnZeroHealth | heredian-server/src/main.rs:176-181 | once a sync copies a living position, later packets no longer move the record; a sync that leaves health 0 lets the next packet copy again |
| GameServer.BoundedPass | heredian-server/src/main.rs:224-232 | a bounded attacker's pass stays within i16, adds at most one hit per target, and leaves targets on other maps (and all targets when damage <= 0) unchanged |
| GameServer.LifelessPasses | heredian-server/src/main.rs:186-200 | the slot loop keeps both target counts and changes targets only in hit fields; targets not on map 0 are never touched; with no `Some` slot of positive damage nothing changes |
| GameServer.TurnOfContract | heredian-server/src/main.rs:261-445 | the game's enemy step meets the contract a cycle relies on |
| GameServer.Cycle | heredian-server/src/main.rs:261-445 | the enemy loop over the first n enemies keeps the numbers of enemies and clients, leaves enemies from n on untouched, and no client has taken more than n hits |
| GameServer.CycleHitsOnly | heredian-server/src/main.rs:261-445 | a cycle changes players only in hit fields |
| GameServer.CycleKeepsIds | heredian-server/src/main.rs:261-445 | a cycle keeps every enemy's id and map |
| GameServer.CycleSends | heredian-server/src/main.rs:440-444 | a cycle sends at most one message per enemy, each a broadcast |
| GameServer.CycleRetiresDead | heredian-server/src/main.rs:255-266 | every enemy that enters dead leaves marked exit |
| GameServer.CycleKeepsInvariants | heredian-server/src/main.rs:250-445 | the lock stays in 0..20 and every enemy keeps a base direction |
| GameServer.RetainKeeps | heredian-server/src/main.rs:255 | dropping enemies keeps the per-enemy bounds and map range |
| GameServer.SwapFront | heredian-server/src/main.rs:161-168 | the swap to the front plus an id-keeping update keeps the table well-formed and the address pairing |
| GameServer.HitsKeepIds | heredian-server/src/main.rs:183-200 | hits change no player id, so the table stays well-formed |
| GameServer.CycleKeepsTable | heredian-server/src/main.rs:253-447 | a whole cycle keeps player ids and records acceptable, enemy ids, the lock range and the dead-enemy rule |
| GameServer.StampAll | heredian-server/src/main.rs:440-442 | every enemy gets the same totchar and totenemies and nothing else changes |
| GameServer.RunEnemies | heredian-server/src/main.rs:257-445 | the imperative enemy loop ends in `Cycle`'s state and queues its broadcasts |
| GameServer.Ambients.constructor | heredian-server/src/main.rs:27-60 | enemies as loaded, no players, `last_id` = enemy count |
| GameServer.Ambients.PlayerIdsAboveEnemyIds | heredian-server/src/main.rs:144-147 | every player id is above every enemy id |
| GameServer.StampSendDirect | heredian-server/src/main.rs:99-103 | the loop leaves every enemy stamped with the counts and has sent each, in order, to the address |
| GameServer.StampBroadcast | heredian-server/src/main.rs:109-113 | the loop leaves every enemy stamped with the counts and has broadcast each, in order |
| GameServer.Ambients.SendDirectEnemies | heredian-server/src/main.rs:96-104 | every enemy is stamped with the counts and sent to the address alone |
| GameServer.Ambients.BroadcastEnemies | heredian-server/src/main.rs:106-114 | every enemy is stamped with the counts and broadcast |
| GameServer.Ambients.ConnectClient | heredian-server/src/main.rs:143-156 | a fresh id, a record sent to and stored for the new address, then every enemy sent to it |
| GameServer.Ambients.DisconnectClient | heredian-server/src/main.rs:134-141 | the address's index is removed from both vectors; an unknown address changes nothing |
| GameServer.Ambients.OnMessage | heredian-server/src/main.rs:158-205 | the sender is swapped to the front and synced, the address pairing is kept, and its record is broadcast |
| GameServer.Ambients.GameCycle | heredian-server/src/main.rs:253-447 | retain, then the enemy loop; the lock stays in 0..20, dead enemies end marked exit, players keep their addresses |
| GameServer.Ambients.Dispatch | heredian-server/src/main.rs:234-243 | `Accepted` appends the new client (new id, count) and its address and sends it the enemies; `Disconnected` removes the address's client, or nothing when absent; `Direct` swaps the sender to the front and syncs it, then broadcasts it; the table stays well-formed |
| FileManager.TrimEnd | heredian-lib/src/file_manager.rs:33 | the longest prefix without trailing whitespace |
| FileManager.CommentStart | heredian-lib/src/file_manager.rs:23-29 | the first `;` or `#`, or the line's length when there is none |
| FileManager.UpTo | heredian-lib/src/file_manager.rs:37 | the first piece of `split`: the prefix before the first separator |
| FileManager.UpToUnique | heredian-lib/src/file_manager.rs:37 | any separator-free prefix ended by the separator or the end is that piece |
| FileManager.Body | heredian-lib/src/file_manager.rs:23-31 | the line cut at the first comment marker, with no `;` or `#` left |
| FileManager.ParseLine | heredian-lib/src/file_manager.rs:31-46 | the text a malformed line reports holds no `=`, and neither do an entry's key and value |
| FileManager.ParseLineKind | heredian-lib/src/file_manager.rs:31-40 | a line is blank iff its body is whitespace; malformed iff not blank and without `=` |
| FileManager.SplitShape | heredian-lib/src/file_manager.rs:37-45 | key and value are the first two `=`-separated pieces of the body |
| FileManager.ParseLineEntry | heredian-lib/src/file_manager.rs:37-46 | an entry line's key and value are the body's first two pieces |
| FileManager.EntryIsClean | heredian-lib/src/file_manager.rs:23-45 | a parsed key or value holds no `=`, `;` or `#` |
| FileManager.ParseEntryLine | heredian-lib/src/file_manager.rs:20-46 | `key=value` with clean parts parses back to that key and value |
| FileManager.Kinds | heredian-lib/src/file_manager.rs:20-21 | one parsed kind per line; `KindsAt` says which |
| FileManager.KindsAt | heredian-lib/src/file_manager.rs:20-47 | kind i is the parse of line i |
| FileManager.Fold | heredian-lib/src/file_manager.rs:20-49 | success iff no line is malformed; otherwise the first malformed line's index and text |
| FileManager.FoldStops | heredian-lib/src/file_manager.rs:38-40 | a malformed line after clean lines ends the load with a failure naming that line and its text |
| FileManager.Load | heredian-lib/src/file_manager.rs:15-50 | the imperative load returns the fold of the lines |
| FileManager.FoldIsLastWriter | heredian-lib/src/file_manager.rs:42-46 | a key is stored iff some line stores a non-`NULL` value for it, and it holds the value of the last such line |
| FileManager.FoldIsClean | heredian-lib/src/file_manager.rs:42-46 | when every stored entry is clean, every stored key and value is free of `=`, `;` and `#`, and no value is `NULL` |
| FileManager.StoredTextIsClean | heredian-lib/src/file_manager.rs:23-46 | every stored key and value of a loaded file is free of `=`, `;` and `#`, and no stored value is `NULL` |
| FileManager.GetString | heredian-lib/src/file_manager.rs:52-54 | some iff the key is stored, with its value |
| FileManager.ParseI32 | heredian-lib/src/file_manager.rs:56-61 | `i32::from_str`: accepted text is non-empty, starts with a digit or a sign, and its value is within i32 range; `ParseShowInt` and `ParseRejectsWhitespace` show what it accepts and refuses |
| FileManager.ParseRejectsWhitespace | heredian-lib/src/file_manager.rs:60 | text with any whitespace does not parse |
| FileManager.ParseShowInt | heredian-lib/src/file_manager.rs:56-61 | the decimal text of every i32 parses back to it |
| FileManager.GetI32 | heredian-lib/src/file_manager.rs:56-61 | `get`: none for a missing key, an error for a value that is not an i32, otherwise the value |
| FileManager.RequireI32 | heredian-lib/src/file_manager.rs:56-61 | `get(..).expect(..)`: some iff the key is stored and parses, with the parsed value |
| FileManager.LoadAppendEntry | heredian-lib/src/file_manager.rs:15-50 | appending a clean entry line to a loadable file stores that value for the key |
| FileManager.LoadedEntryReadsBack | heredian-lib/src/file_manager.rs:15-61 | a file ending in `key=<decimal v>` reads back v through `get` |
| Structs.Columns | heredian-client/src/heredian/structs.rs:380 | `(0..qt).rev()` runs qt times, none when qt <= 0 |
| Structs.Frame | heredian-client/src/heredian/structs.rs:381-395 | size, column and row as given; last on column qt-1; first on column 0 unless it is also the last |
| Structs.Row | heredian-client/src/heredian/structs.rs:380-398 | the row's frames in ascending column order |
| Structs.Table | heredian-client/src/heredian/structs.rs:368-399 | after n iterations the deque holds n blocks, the latest block in front |
| Structs.PushRow | heredian-client/src/heredian/structs.rs:380-398 | the inner loop puts the whole row, ascending, in front of the deque |
| Structs.BuildSprites | heredian-client/src/heredian/structs.rs:366-401 | the outer loop builds the four-row table |
| Structs.SpriteFromConfig | heredian-client/src/heredian/structs.rs:360-402 | none iff `qt_sprites`, `size_x` or `size_y` is missing or not an integer; otherwise the table of their values |
| Structs.TableFrames | heredian-client/src/heredian/structs.rs:368-398 | every frame is the frame of its own row and column, both in range |
| Structs.SpriteOrder | heredian-client/src/heredian/structs.rs:368-398 | the table is row 3, then 2, 1, 0, each ascending |
| Structs.PlaceholderSheet | heredian-client/src/heredian/structs.rs:369-378 | `qt_sprites` = -1 yields exactly four placeholders |
| Structs.SpriteCount | heredian-client/src/heredian/structs.rs:366-401 | 4 frames per column, and 4 placeholders when `qt_sprites` is -1 |
| Structs.SpriteFlags | heredian-client/src/heredian/structs.rs:380-398 | every frame has the configured size; last iff column qt-1; first iff column 0 of a row of more than one column |
| Structs.InfoCharFromConfig | heredian-client/src/heredian/structs.rs:428-441 | none iff name, healtfull or staminafull is missing or unparsable; otherwise the values, at full health and stamina |

## Left out

- Sockets, threads, channels, `thread::sleep` and the connection threads of
  `Client`/`Server` (`connect`, `start`, `listen`, `recv`) are not modelled. `Server` is
  the queue of messages handed to the connection thread.
- `Message::Disconnected` and `Server::try_recv` are not defined in net.rs
  but are used by main.rs. The model adds `Disconnected` to `Message`, and
  `Dispatch` takes one message where `recv_once` loops over `try_recv`.
- `rand::random` is a parameter. Each pass or enemy takes its draw from a
  `roll` function.
- The map pixels read by `enemy_collided` are a `wall` oracle. The model
  keeps only its explicit bounds tests (main.rs:456-462). The bitmap scaling
  and the f32 arithmetic are not modelled.
- `distance` is an f32 `hypot`. The model compares squared integer distances,
  which order clients the same way up to f32 rounding.
- `dx` and `dy` go through an f32 `abs` cast back to i16. The model uses the
  exact integer absolute value.
- i16 overflow in `hit`, `dir_damage` and the enemy moves panics in debug
  builds. The model requires bounds (`EnemySane`, `ClientSane`, `CycleSafe`)
  that keep every such operation within i16, and does not model the panic or
  a release-mode wrap.
- `Ambients::load`, `load_enemies` and `main` read files through `ConfigFile`
  and load Allegro bitmaps. The constructor takes their results as
  parameters.
- `ConfigFile::load` takes the file's lines. Opening the file, the
  `BufReader` line split and invalid UTF-8 are not modelled.
- FileManager.GetI32: `get` is generic over any `FromStr` type; only `i32`
  is modelled, the type `Sprite::from_config` and `InfoChar::from_config`
  read. The server's reads of i16 and usize values (main.rs:31-33, 38,
  69-89) belong to `Ambients::load` and `load_enemies`, which are not part of
  this model. The `expect` panic on a bad value is modelled as an error result.
- FileManager.Load: a malformed line panics in the source; the model
  returns a failure naming the line.
- Structs.SpriteFromConfig and Structs.InfoCharFromConfig: the `expect`
  panics are modelled as `None`.
- The rest of structs.rs (bitmap loading, `Object`, `Action` and the other
  records) is not part of this model.
- heredian-lib/src/allegro_safe.rs is not part of this model.
- GameServer.LifelessPasses: the contract does not state the targets'
  final records as a fold of `damage_char` over the slots; it states which
  targets can change (those on map 0, only in hit fields, only when some slot
  has positive damage) and by how much (`BoundedPass`).
- The constants `GDPLEFT` .. `GDPDOWN` used by main.rs are not defined in
  any server or library file of the repository: main.rs imports only
  heredian_lib (main.rs:6-14), which defines `DIRECTION_*` instead. The model
  takes the values of the client's structs.rs:9-12 (1, 2, 4, 8), which are
  the same as lib.rs's `DIRECTION_LEFT` .. `DIRECTION_DOWN` (lib.rs:13-16).
- `unreachable!()` in `hit` and `dir_damage` is excluded by requiring a base
  direction (`IsGdp`). `Combat.TurnKeepsInvariants` proves the game keeps
  that facing.
- Indexing `models[(idmap-1)]` in `game_loop` panics on a bad map id. The
  model requires every enemy's `idmap` to be in `1..=models.len()`.
- GameServer.Ambients.OnMessage: the `expect` on an unknown `idchar` is a
  precondition (the sender must be connected).
- GameServer.Ambients.ConnectClient: `last_id += 1` overflows at 32767;
  the model requires `last_id < 32767`.
