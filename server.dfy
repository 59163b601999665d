/** heredian-server/src/main.rs: the game server's session table. `Ambients`
    keeps the enemies, the connected players' records and, index-aligned
    with them, the players' socket addresses; ids come from `last_id`. */
module GameServer {
  import opened Common
  import opened Wire
  import opened Net
  import opened Combat

  /** The idchar of each record, in order. */
  function Ids(cs: seq<CharInfo>): (r: seq<I16>)
    ensures |r| == |cs| && forall k :: 0 <= k < |cs| ==> r[k] == cs[k].idchar
  {
    seq(|cs|, k requires 0 <= k < |cs| => cs[k].idchar)
  }

  predicate DistinctIds(cs: seq<CharInfo>)
  {
    forall i, j :: 0 <= i < j < |cs| ==> cs[i].idchar != cs[j].idchar
  }

  /** The record `connect_client` creates for a new player. */
  function NewClient(id: I16, count: nat): (r: CharInfo)
    ensures r.idchar == id && r.totchar == Wrap16(count)
    ensures r == DefaultChar.(idchar := r.idchar, totchar := r.totchar)
  {
    DefaultChar.(idchar := id, totchar := Wrap16(count))
  }

  /** The counts every outgoing enemy record carries. */
  function Stamp(e: CharInfo, chars: nat, enemies: nat): CharInfo
  {
    e.(totchar := Wrap16(chars), totenemies := Wrap16(enemies))
  }

  /** A stamped record carries both counts as i16 and is otherwise the
      record it was made from; stamping twice with the same counts changes
      nothing more. */
  lemma StampFields(e: CharInfo, chars: nat, enemies: nat)
    ensures var r := Stamp(e, chars, enemies);
      && r.totchar == Wrap16(chars) && r.totenemies == Wrap16(enemies)
      && r == e.(totchar := r.totchar, totenemies := r.totenemies)
      && Stamp(r, chars, enemies) == r
  {
  }

  /** The messages `send_direct_enemies` queues for `es`, one per enemy. */
  function Directs(es: seq<CharInfo>, addr: SocketAddr): (r: seq<Message<CharInfo>>)
    ensures |r| == |es| && forall k :: 0 <= k < |es| ==> r[k] == Direct(es[k], addr)
  {
    if es == [] then [] else Directs(es[..|es| - 1], addr) + [Direct(es[|es| - 1], addr)]
  }

  /** The messages `broadcast_enemies` queues for `es`, one per enemy. */
  function Broadcasts(es: seq<CharInfo>): (r: seq<Message<CharInfo>>)
    ensures |r| == |es| && forall k :: 0 <= k < |es| ==> r[k] == Broadcast(es[k])
  {
    if es == [] then [] else Broadcasts(es[..|es| - 1]) + [Broadcast(es[|es| - 1])]
  }

  /** `Vec::retain(|e| !e.exit)`: the enemies not marked `exit`, in order. */
  function Retain(es: seq<CharInfo>): (r: seq<CharInfo>)
    ensures |r| <= |es|
    ensures forall e :: e in r <==> e in es && !e.exit
  {
    if es == [] then []
    else (if es[0].exit then [] else [es[0]]) + Retain(es[1..])
  }

  /** `retain` keeps every enemy not marked `exit` as many times as it
      occurs, and no enemy marked `exit`. */
  lemma {:induction false} RetainMultiset(es: seq<CharInfo>)
    ensures forall e :: multiset(Retain(es))[e] == if e.exit then 0 else multiset(es)[e]
  {
    if es != [] {
      assert es == [es[0]] + es[1..];
      RetainMultiset(es[1..]);
    }
  }

  /** On one enemy, `retain` keeps it exactly when it is not marked `exit`. */
  lemma RetainSingle(e: CharInfo)
    ensures Retain([e]) == if e.exit then [] else [e]
  {
  }

  /** `retain` works element by element and keeps the order: retaining a
      concatenation retains each part and concatenates the results. */
  lemma {:induction false} RetainAppend(a: seq<CharInfo>, b: seq<CharInfo>)
    ensures Retain(a + b) == Retain(a) + Retain(b)
  {
    if a == [] {
      assert a + b == b;
    } else {
      assert (a + b)[0] == a[0] && (a + b)[1..] == a[1..] + b;
      RetainAppend(a[1..], b);
    }
  }

  /** `healt.max(0)`. */
  function Max0(v: I16): (r: I16)
    ensures r >= 0 && r >= v
    ensures r == v || r == 0
  {
    if v > 0 then v else 0
  }

  /** What `on_message` makes of the sender's stored record: the counts, the
      packet's map, and (only while the stored health is 0) the packet's
      health, position and sprite, with health floored at 0 at the end. */
  function SyncRecord(stored: CharInfo, packet: CharInfo, lenClients: nat, lenEnemies: nat): (r: CharInfo)
    ensures r.idmap == packet.idmap && r.healt >= 0
    ensures r.totchar == Wrap16(lenClients) && r.totenemies == Wrap16(lenEnemies)
    ensures stored.healt == 0 ==>
      r.x == packet.x && r.y == packet.y && r.numchar == packet.numchar && r.healt == Max0(packet.healt)
    ensures stored.healt != 0 ==>
      r.x == stored.x && r.y == stored.y && r.numchar == stored.numchar && r.healt == Max0(stored.healt)
    ensures r == stored.(idmap := r.idmap, totchar := r.totchar, totenemies := r.totenemies,
                         healt := r.healt, x := r.x, y := r.y, numchar := r.numchar)
  {
    var s := stored.(totchar := Wrap16(lenClients), totenemies := Wrap16(lenEnemies), idmap := packet.idmap);
    var s' := if s.healt == 0 then s.(healt := packet.healt, x := packet.x, y := packet.y, numchar := packet.numchar) else s;
    s'.(healt := Max0(s'.healt))
  }

  /** Anchoring: once a sync has copied a living position (packet health
      above 0), later packets no longer move the stored record; a sync that
      leaves health at 0 lets the next packet copy again. */
  lemma {:induction false} AnchorOnZeroHealth(stored: CharInfo, p1: CharInfo, p2: CharInfo, n: nat, m: nat)
    requires stored.healt == 0
    ensures var r1 := SyncRecord(stored, p1, n, m);
      var r2 := SyncRecord(r1, p2, n, m);
      && (p1.healt > 0 ==> r2.x == p1.x && r2.y == p1.y && r2.healt == p1.healt)
      && (p1.healt <= 0 ==> r2.x == p2.x && r2.y == p2.y && r2.healt == Max0(p2.healt))
  {
    var r1 := SyncRecord(stored, p1, n, m);
    assert r1.healt == Max0(p1.healt);
  }

  /** The record `on_message` hands to `damage_char` for a lifeless slot. */
  function LifelessChar(l: Lifeless): (r: CharInfo)
    ensures r.idmap == 0
    ensures r.x == l.x && r.y == l.y && r.w == l.w && r.h == l.h && r.d == l.d && r.damage == l.damage
    ensures r == DefaultChar.(x := r.x, y := r.y, w := r.w, h := r.h, d := r.d, damage := r.damage)
  {
    DefaultChar.(x := l.x, y := l.y, w := l.w, h := l.h, d := l.d, damage := l.damage)
  }

  predicate LifelessSane(l: Lifeless)
  {
    EnemySane(LifelessChar(l))
  }

  predicate HasLifeless(slots: Slots)
  {
    exists i :: 0 <= i < SlotCount && slots[i].Some?
  }

  /** Some slot holds a lifeless with positive damage, the only kind
      `damage_char` lets attack. */
  predicate HasArmedLifeless(slots: Slots)
  {
    exists i :: 0 <= i < SlotCount && slots[i].Some? && slots[i].value.damage > 0
  }

  /** What the lifeless passes of `on_message` need: every slot within the
      bounds, and (when there is a slot at all) every target within them. */
  predicate LifelessPassesSafe(slots: Slots, others: seq<CharInfo>, enemies: seq<CharInfo>)
  {
    && (forall i :: 0 <= i < SlotCount && slots[i].Some? ==> LifelessSane(slots[i].value))
    && (HasLifeless(slots) ==>
          && (forall j :: 0 <= j < |others| ==> ClientSane(others[j], 0))
          && (forall j :: 0 <= j < |enemies| ==> ClientSane(enemies[j], 0)))
  }

  /** One `damage_char` pass of a bounded attacker over targets that have
      taken at most `k` hits: safe, and each target ends with at most `k + 1`. */
  method BoundedPass(a: CharInfo, ts: seq<CharInfo>, roll: Rolls, ghost k: nat) returns (res: seq<CharInfo>)
    requires EnemySane(a) && k < EnemyBound
    requires forall j :: 0 <= j < |ts| ==> ClientSane(ts[j], k)
    ensures |res| == |ts|
    ensures forall j :: 0 <= j < |ts| ==> OnlyHitFields(ts[j], res[j]) && ClientSane(res[j], k + 1)
    ensures forall j :: 0 <= j < |ts| && (a.damage <= 0 || ts[j].idmap != a.idmap) ==> res[j] == ts[j]
  {
    forall j | 0 <= j < |ts| ensures DirDamageSafe(a, ts[j], roll(j)) {
      DirDamageKeepsSane(a, ts[j], roll(j), k);
    }
    res := DamageChar(a, ts, roll);
    forall j | 0 <= j < |ts| ensures ClientSane(res[j], k + 1) {
      DirDamageKeepsSane(a, ts[j], roll(j), k);
    }
  }

  /** The `for lifeless in this_char.listlifeless` loop of `on_message`: each
      `Some` slot attacks the other players and then the enemies with its own
      damage and direction, on map 0. `roll(2 + 2i, k)` and `roll(3 + 2i, k)`
      are the draws of slot i's two passes. */
  method LifelessPasses(slots: Slots, others: seq<CharInfo>, enemies: seq<CharInfo>, roll: (nat, nat) -> I16)
    returns (others': seq<CharInfo>, enemies': seq<CharInfo>)
    requires LifelessPassesSafe(slots, others, enemies)
    ensures |others'| == |others| && |enemies'| == |enemies|
    ensures forall j :: 0 <= j < |others| ==> OnlyHitFields(others[j], others'[j])
    ensures forall j :: 0 <= j < |enemies| ==> OnlyHitFields(enemies[j], enemies'[j])
    ensures !HasLifeless(slots) ==> others' == others && enemies' == enemies
    ensures !HasArmedLifeless(slots) ==> others' == others && enemies' == enemies
    ensures forall j :: 0 <= j < |others| && others[j].idmap != 0 ==> others'[j] == others[j]
    ensures forall j :: 0 <= j < |enemies| && enemies[j].idmap != 0 ==> enemies'[j] == enemies[j]
  {
    others', enemies' := others, enemies;
    for i := 0 to SlotCount
      invariant |others'| == |others| && |enemies'| == |enemies|
      invariant forall j :: 0 <= j < |others| ==> OnlyHitFields(others[j], others'[j])
      invariant forall j :: 0 <= j < |enemies| ==> OnlyHitFields(enemies[j], enemies'[j])
      invariant HasLifeless(slots) ==>
        && (forall j :: 0 <= j < |others| ==> ClientSane(others'[j], i))
        && (forall j :: 0 <= j < |enemies| ==> ClientSane(enemies'[j], i))
      invariant (forall k :: 0 <= k < i ==> slots[k].None? || slots[k].value.damage <= 0) ==>
        others' == others && enemies' == enemies
      invariant forall j :: 0 <= j < |others| && others[j].idmap != 0 ==> others'[j] == others[j]
      invariant forall j :: 0 <= j < |enemies| && enemies[j].idmap != 0 ==> enemies'[j] == enemies[j]
    {
      match slots[i] {
        case Some(l) =>
          var lc := LifelessChar(l);
          others' := BoundedPass(lc, others', k => roll(2 + 2 * i, k), i);
          enemies' := BoundedPass(lc, enemies', k => roll(3 + 2 * i, k), i);
        case None =>
      }
    }
  }

  /** The state after the first `n` enemies of a `game_loop` cycle. */
  datatype CycleState = CycleState(enemies: seq<CharInfo>, clients: seq<CharInfo>, lock: int,
                                   sent: seq<Message<CharInfo>>)

  /** What a cycle needs to stay inside i16 and never hit `unreachable!`. */
  predicate CycleSafe(es: seq<CharInfo>, cs: seq<CharInfo>)
  {
    && |es| <= EnemyBound
    && (forall i :: 0 <= i < |es| ==> EnemySane(es[i]))
    && (forall j :: 0 <= j < |cs| ==> ClientSane(cs[j], 0))
  }

  /** An enemy's turn as a value: enemy, clients, lock and draw in, `Turn` out. */
  type TurnFn = (CharInfo, seq<CharInfo>, int, I16) --> Turn

  /** The turn of `game_loop` in world `w`. */
  function TurnOf(w: World): TurnFn
  {
    (e: CharInfo, cs: seq<CharInfo>, lock: int, roll: I16) requires TurnSafe(e, cs) => EnemyTurn(w, e, cs, lock, roll)
  }

  /** `turn` is defined on every safe input and meets `TurnOk` there. */
  ghost predicate TurnContract(turn: TurnFn)
  {
    forall e, cs, lock, roll :: TurnSafe(e, cs) ==>
      turn.requires(e, cs, lock, roll) && TurnOk(e, cs, lock, turn(e, cs, lock, roll))
  }

  lemma TurnOfContract(w: World)
    ensures TurnContract(TurnOf(w))
  {
    forall e, cs, lock, roll | TurnSafe(e, cs)
      ensures TurnOf(w).requires(e, cs, lock, roll) && TurnOk(e, cs, lock, TurnOf(w)(e, cs, lock, roll))
    {
      EnemyTurnOk(w, e, cs, lock, roll);
    }
  }

  /** The enemy loop of one `game_loop` cycle over its first `n` enemies:
      enemy `i` takes its `turn` with draw `roll(i)` against the clients and
      lock left by the enemies before it, and a record that is sent is
      stamped with the counts taken before the loop. */
  function Cycle(turn: TurnFn, es: seq<CharInfo>, cs: seq<CharInfo>, lock: int, roll: Rolls, n: nat): (s: CycleState)
    requires n <= |es| && CycleSafe(es, cs) && TurnContract(turn)
    ensures |s.enemies| == |es| && |s.clients| == |cs|
    ensures forall j :: 0 <= j < |cs| ==> ClientSane(s.clients[j], n)
    ensures forall i :: n <= i < |es| ==> s.enemies[i] == es[i]
    decreases n
  {
    if n == 0 then CycleState(es, cs, lock, [])
    else
      var p := Cycle(turn, es, cs, lock, roll, n - 1);
      var t := turn(p.enemies[n - 1], p.clients, p.lock, roll(n - 1));
      var e := if t.send then Stamp(t.enemy, |cs|, |es|) else t.enemy;
      CycleState(p.enemies[n - 1 := e], t.clients, t.lock, if t.send then p.sent + [Broadcast(e)] else p.sent)
  }

  /** A cycle changes players only where hits land. */
  lemma {:induction false} CycleHitsOnly(turn: TurnFn, es: seq<CharInfo>, cs: seq<CharInfo>, lock: int, roll: Rolls, n: nat)
    requires n <= |es| && CycleSafe(es, cs) && TurnContract(turn)
    ensures var s := Cycle(turn, es, cs, lock, roll, n);
      forall j :: 0 <= j < |cs| ==> OnlyHitFields(cs[j], s.clients[j])
  {
    if n > 0 {
      CycleHitsOnly(turn, es, cs, lock, roll, n - 1);
      var p := Cycle(turn, es, cs, lock, roll, n - 1);
      var t := turn(p.enemies[n - 1], p.clients, p.lock, roll(n - 1));
      forall j | 0 <= j < |cs| ensures OnlyHitFields(cs[j], t.clients[j]) {
        OnlyHitFieldsTrans(cs[j], p.clients[j], t.clients[j]);
      }
    }
  }

  /** A cycle never changes an enemy's id or map. */
  lemma {:induction false} CycleKeepsIds(turn: TurnFn, es: seq<CharInfo>, cs: seq<CharInfo>, lock: int, roll: Rolls, n: nat)
    requires n <= |es| && CycleSafe(es, cs) && TurnContract(turn)
    ensures var s := Cycle(turn, es, cs, lock, roll, n);
      forall i :: 0 <= i < |es| ==> s.enemies[i].idchar == es[i].idchar && s.enemies[i].idmap == es[i].idmap
  {
    if n > 0 {
      CycleKeepsIds(turn, es, cs, lock, roll, n - 1);
      var p := Cycle(turn, es, cs, lock, roll, n - 1);
      var s := Cycle(turn, es, cs, lock, roll, n);
      assert TurnOk(es[n - 1], p.clients, p.lock, turn(p.enemies[n - 1], p.clients, p.lock, roll(n - 1)));
      forall i | 0 <= i < |es| ensures s.enemies[i].idchar == es[i].idchar && s.enemies[i].idmap == es[i].idmap {
        if i != n - 1 {
          assert s.enemies[i] == p.enemies[i];
        }
      }
    }
  }

  /** A cycle sends at most one message per enemy, every one a broadcast. */
  lemma {:induction false} CycleSends(turn: TurnFn, es: seq<CharInfo>, cs: seq<CharInfo>, lock: int, roll: Rolls, n: nat)
    requires n <= |es| && CycleSafe(es, cs) && TurnContract(turn)
    ensures var s := Cycle(turn, es, cs, lock, roll, n);
      |s.sent| <= n && forall m :: m in s.sent ==> m.Broadcast?
  {
    if n > 0 {
      CycleSends(turn, es, cs, lock, roll, n - 1);
    }
  }

  /** A cycle marks every dead enemy `exit` (and broadcasts it that way), so
      the `retain` at the head of the next cycle removes it. */
  lemma {:induction false} CycleRetiresDead(turn: TurnFn, es: seq<CharInfo>, cs: seq<CharInfo>, lock: int, roll: Rolls, n: nat, i: nat)
    requires n <= |es| && CycleSafe(es, cs) && TurnContract(turn) && i < n && es[i].healt <= 0
    ensures Cycle(turn, es, cs, lock, roll, n).enemies[i].exit
  {
    var p := Cycle(turn, es, cs, lock, roll, n - 1);
    var s := Cycle(turn, es, cs, lock, roll, n);
    if i < n - 1 {
      CycleRetiresDead(turn, es, cs, lock, roll, n - 1, i);
      assert s.enemies[i] == p.enemies[i];
    } else {
      assert TurnOk(es[i], p.clients, p.lock, turn(p.enemies[i], p.clients, p.lock, roll(i)));
    }
  }

  /** Across a cycle the shared boss lock stays in 0..20 and every enemy
      keeps facing a base direction, so the next cycle can start again. */
  lemma {:induction false} CycleKeepsInvariants(turn: TurnFn, es: seq<CharInfo>, cs: seq<CharInfo>, lock: int, roll: Rolls, n: nat)
    requires n <= |es| && CycleSafe(es, cs) && TurnContract(turn) && 0 <= lock <= 20
    ensures var s := Cycle(turn, es, cs, lock, roll, n);
      0 <= s.lock <= 20 && forall i :: 0 <= i < |es| ==> IsGdp(s.enemies[i].d)
  {
    if n > 0 {
      CycleKeepsInvariants(turn, es, cs, lock, roll, n - 1);
    }
  }

  lemma RetainKeeps(es: seq<CharInfo>, mapCount: nat, firstId: int)
    requires forall i :: 0 <= i < |es| ==> EnemySane(es[i]) && 1 <= es[i].idmap <= mapCount
    requires forall i :: 0 <= i < |es| ==> 1 <= es[i].idchar <= firstId
    ensures forall i :: 0 <= i < |Retain(es)| ==> EnemySane(Retain(es)[i]) && 1 <= Retain(es)[i].idmap <= mapCount
    ensures forall i :: 0 <= i < |Retain(es)| ==> 1 <= Retain(es)[i].idchar <= firstId
  {
    forall i | 0 <= i < |Retain(es)|
      ensures EnemySane(Retain(es)[i]) && 1 <= Retain(es)[i].idmap <= mapCount
      ensures 1 <= Retain(es)[i].idchar <= firstId
    {
      assert Retain(es)[i] in Retain(es);
    }
  }

  /** A stored player record the table accepts: an id in (lo, hi], and no
      damage or lifeless slots. */
  predicate ClientOk(c: CharInfo, lo: int, hi: int)
  {
    lo < c.idchar <= hi && c.damage == 0 && c.listlifeless == NoSlots
  }

  /** The swap-to-front of `on_message` followed by an update of the front
      record that keeps its id: the table stays well-formed, ids stay
      distinct and no address is re-paired with another player. */
  lemma SwapFront(cs: seq<CharInfo>, addrs: seq<SocketAddr>, pos: nat, r: CharInfo, lo: int, hi: int)
    requires |cs| == |addrs| && pos < |cs|
    requires forall i :: 0 <= i < |cs| ==> ClientOk(cs[i], lo, hi)
    requires Distinct(Ids(cs)) && r.idchar == cs[pos].idchar && ClientOk(r, lo, hi)
    ensures var cs' := Swap(cs, 0, pos)[0 := r];
      && (forall i :: 0 <= i < |cs'| ==> ClientOk(cs'[i], lo, hi))
      && Ids(cs') == Swap(Ids(cs), 0, pos)
      && Distinct(Ids(cs'))
      && multiset(Zip(Swap(addrs, 0, pos), Ids(cs'))) == multiset(Zip(addrs, Ids(cs)))
  {
    var cs' := Swap(cs, 0, pos)[0 := r];
    assert Ids(cs') == Swap(Ids(cs), 0, pos);
    SwapDistinct(Ids(cs), 0, pos);
    ZipSwap(addrs, Ids(cs), 0, pos);
    SwapMultiset(Zip(addrs, Ids(cs)), 0, pos);
  }

  /** Player records only ever change where hits land, so ids are kept. */
  lemma HitsKeepIds(cs: seq<CharInfo>, cs': seq<CharInfo>, lo: int, hi: int)
    requires |cs| == |cs'| && forall j :: 0 <= j < |cs| ==> OnlyHitFields(cs[j], cs'[j])
    requires forall i :: 0 <= i < |cs| ==> ClientOk(cs[i], lo, hi)
    ensures Ids(cs') == Ids(cs)
    ensures forall i :: 0 <= i < |cs'| ==> ClientOk(cs'[i], lo, hi)
  {
    assert forall j :: 0 <= j < |cs| ==> cs'[j].idchar == cs[j].idchar;
  }

  /** A whole cycle keeps the session table well-formed: players keep their
      ids and stay acceptable records, enemies keep ids up to `firstId`, the
      lock stays in 0..20, and every enemy that entered dead leaves `exit`. */
  lemma CycleKeepsTable(turn: TurnFn, es: seq<CharInfo>, cs: seq<CharInfo>, lock: int, roll: Rolls,
                        firstId: int, lastId: int)
    requires CycleSafe(es, cs) && TurnContract(turn) && 0 <= lock <= 20
    requires forall i :: 0 <= i < |es| ==> 1 <= es[i].idchar <= firstId
    requires forall i :: 0 <= i < |cs| ==> ClientOk(cs[i], firstId, lastId)
    ensures var s := Cycle(turn, es, cs, lock, roll, |es|);
      && Ids(s.clients) == Ids(cs)
      && (forall i :: 0 <= i < |cs| ==> ClientOk(s.clients[i], firstId, lastId))
      && (forall i :: 0 <= i < |es| ==> 1 <= s.enemies[i].idchar <= firstId)
      && (forall i :: 0 <= i < |es| && es[i].healt <= 0 ==> s.enemies[i].exit)
      && 0 <= s.lock <= 20
  {
    var s := Cycle(turn, es, cs, lock, roll, |es|);
    CycleHitsOnly(turn, es, cs, lock, roll, |es|);
    CycleKeepsIds(turn, es, cs, lock, roll, |es|);
    CycleKeepsInvariants(turn, es, cs, lock, roll, |es|);
    HitsKeepIds(cs, s.clients, firstId, lastId);
    forall i | 0 <= i < |es| && es[i].healt <= 0 ensures s.enemies[i].exit {
      CycleRetiresDead(turn, es, cs, lock, roll, |es|, i);
    }
  }

  /** Every enemy stamped with the same counts. */
  function StampAll(es: seq<CharInfo>, chars: nat, enemies: nat): (r: seq<CharInfo>)
    ensures |r| == |es| && forall k :: 0 <= k < |es| ==> r[k] == Stamp(es[k], chars, enemies)
  {
    seq(|es|, k requires 0 <= k < |es| => Stamp(es[k], chars, enemies))
  }

  /** Replacing entry `i` and sending it extends the messages for the first
      `i` entries by one. */
  lemma DirectsSnoc(es: seq<CharInfo>, i: nat, e: CharInfo, addr: SocketAddr)
    requires i < |es|
    ensures Directs(es[i := e][..i + 1], addr) == Directs(es[..i], addr) + [Direct(e, addr)]
  {
    assert es[i := e][..i + 1][..i] == es[..i];
  }

  lemma BroadcastsSnoc(es: seq<CharInfo>, i: nat, e: CharInfo)
    requires i < |es|
    ensures Broadcasts(es[i := e][..i + 1]) == Broadcasts(es[..i]) + [Broadcast(e)]
  {
    assert es[i := e][..i + 1][..i] == es[..i];
  }

  /** The loop of `send_direct_enemies` over the enemy vector `es`: each enemy in
      turn is stamped with `chars` and `count` and sent. */
  method StampSendDirect(es0: seq<CharInfo>, chars: nat, count: nat, server: Server<CharInfo>, addr: SocketAddr) returns (es: seq<CharInfo>)
    modifies server
    ensures es == StampAll(es0, chars, count)
    ensures server.sent == old(server.sent) + Directs(es, addr)
  {
    es := es0;
    for i := 0 to |es0|
      invariant |es| == |es0|
      invariant forall k :: 0 <= k < i ==> es[k] == Stamp(es0[k], chars, count)
      invariant forall k :: i <= k < |es0| ==> es[k] == es0[k]
      invariant server.sent == old(server.sent) + Directs(es[..i], addr)
    {
      ghost var prev := es;
      es := es[i := Stamp(es[i], chars, count)];
      server.Send(Direct(es[i], addr));
      DirectsSnoc(prev, i, es[i], addr);
    }
    assert es[..|es0|] == es;
  }

  /** The loop of `broadcast_enemies` over the enemy vector `es`: each enemy in
      turn is stamped with `chars` and `count` and sent. */
  method StampBroadcast(es0: seq<CharInfo>, chars: nat, count: nat, server: Server<CharInfo>) returns (es: seq<CharInfo>)
    modifies server
    ensures es == StampAll(es0, chars, count)
    ensures server.sent == old(server.sent) + Broadcasts(es)
  {
    es := es0;
    for i := 0 to |es0|
      invariant |es| == |es0|
      invariant forall k :: 0 <= k < i ==> es[k] == Stamp(es0[k], chars, count)
      invariant forall k :: i <= k < |es0| ==> es[k] == es0[k]
      invariant server.sent == old(server.sent) + Broadcasts(es[..i])
    {
      ghost var prev := es;
      es := es[i := Stamp(es[i], chars, count)];
      server.Send(Broadcast(es[i]));
      BroadcastsSnoc(prev, i, es[i]);
    }
    assert es[..|es0|] == es;
  }

  /** The `for enemy in enemies.iter_mut()` loop of `game_loop`: each enemy
      in order takes its `turn` against the clients and lock left by the ones
      before it; a record that is sent is stamped with the counts taken before
      the loop and broadcast. */
  method RunEnemies(turn: TurnFn, es: seq<CharInfo>, cs: seq<CharInfo>, lock: int, roll: Rolls, server: Server<CharInfo>)
    returns (s: CycleState)
    requires CycleSafe(es, cs) && TurnContract(turn)
    modifies server
    ensures s == Cycle(turn, es, cs, lock, roll, |es|)
    ensures server.sent == old(server.sent) + s.sent
  {
    var lenChars, lenEnemies := |cs|, |es|;
    var enemies, clients, lock' := es, cs, lock;
    var sent: seq<Message<CharInfo>> := [];
    for i := 0 to lenEnemies
      invariant Cycle(turn, es, cs, lock, roll, i) == CycleState(enemies, clients, lock', sent)
      invariant server.sent == old(server.sent) + sent
    {
      assert enemies[i] == es[i] && TurnSafe(enemies[i], clients);
      var t := turn(enemies[i], clients, lock', roll(i));
      var e := if t.send then Stamp(t.enemy, lenChars, lenEnemies) else t.enemy;
      assert Cycle(turn, es, cs, lock, roll, i + 1)
          == CycleState(enemies[i := e], t.clients, t.lock, if t.send then sent + [Broadcast(e)] else sent);
      if t.send {
        server.Send(Broadcast(e));
        sent := sent + [Broadcast(e)];
      }
      enemies, clients, lock' := enemies[i := e], t.clients, t.lock;
    }
    s := CycleState(enemies, clients, lock', sent);
  }

  /** The mutable game state shared by the connection handlers and the enemy loop. */
  class Ambients {
    const width: I16
    const height: I16
    /** The `numchar` that marks the boss. */
    const bossNum: I16
    /** How many map bitmaps were loaded (`models.len()`). */
    const mapCount: nat
    var enemies: seq<CharInfo>
    var clients: seq<CharInfo>
    var clientsAddrs: seq<SocketAddr>
    var lastId: I16
    /** The enemy count `last_id` was seeded with. */
    ghost const firstId: I16

    /** The table's invariant: the two client vectors stay index-aligned;
        player ids are distinct, above every enemy id and at most `last_id`;
        and no player record carries damage or lifeless slots, since
        `on_message` never copies those from a packet. */
    ghost predicate Valid()
      reads this
    {
      && |clients| == |clientsAddrs|
      && 0 <= firstId <= lastId
      && (forall i :: 0 <= i < |enemies| ==> 1 <= enemies[i].idchar <= firstId)
      && (forall i :: 0 <= i < |clients| ==> ClientOk(clients[i], firstId, lastId))
      && Distinct(Ids(clients))
    }

    /** The address of each player paired with its record's id. */
    ghost function Pairs(): seq<(SocketAddr, I16)>
      reads this
      requires |clients| == |clientsAddrs|
    {
      Zip(clientsAddrs, Ids(clients))
    }

    /** The end of `Ambients::load`: enemies numbered 1..n, no players yet,
        and `last_id` seeded with the enemy count. */
    constructor (width: I16, height: I16, bossNum: I16, mapCount: nat, enemies: seq<CharInfo>)
      requires |enemies| < 0x8000
      requires forall i :: 0 <= i < |enemies| ==> enemies[i].idchar == i + 1
      ensures Valid()
      ensures this.enemies == enemies && clients == [] && clientsAddrs == [] && lastId == |enemies|
      ensures this.width == width && this.height == height && this.bossNum == bossNum && this.mapCount == mapCount
    {
      this.width, this.height, this.bossNum, this.mapCount := width, height, bossNum, mapCount;
      this.enemies := enemies;
      clients, clientsAddrs := [], [];
      lastId := |enemies|;
      firstId := |enemies|;
    }

    /** Player ids never collide with enemy ids: every player id is above
        every enemy id. */
    lemma PlayerIdsAboveEnemyIds()
      requires Valid()
      ensures forall i, j :: 0 <= i < |clients| && 0 <= j < |enemies| ==> enemies[j].idchar < clients[i].idchar
    {
    }

    /** `send_direct_enemies`: stamps every enemy with the current counts and
        sends it to `addr` alone. */
    method SendDirectEnemies(server: Server<CharInfo>, addr: SocketAddr)
      modifies this, server
      ensures enemies == StampAll(old(enemies), |clients|, |old(enemies)|)
      ensures server.sent == old(server.sent) + Directs(enemies, addr)
      ensures clients == old(clients) && clientsAddrs == old(clientsAddrs) && lastId == old(lastId)
    {
      enemies := StampSendDirect(enemies, |clients|, |enemies|, server, addr);
    }

    /** `broadcast_enemies`: the same stamping, sent to every player. */
    method BroadcastEnemies(server: Server<CharInfo>)
      modifies this, server
      ensures enemies == StampAll(old(enemies), |clients|, |old(enemies)|)
      ensures server.sent == old(server.sent) + Broadcasts(enemies)
      ensures clients == old(clients) && clientsAddrs == old(clientsAddrs) && lastId == old(lastId)
    {
      enemies := StampBroadcast(enemies, |clients|, |enemies|, server);
    }

    /** `connect_client`: the next id goes to a fresh record, which is sent
        to the new player and appended with its address; then the player
        receives every enemy. */
    method ConnectClient(addr: SocketAddr, server: Server<CharInfo>)
      requires Valid() && lastId < 0x7FFF
      modifies this, server
      ensures Valid()
      ensures lastId == old(lastId) + 1
      ensures clients == old(clients) + [NewClient(lastId, |old(clients)| + 1)]
      ensures clientsAddrs == old(clientsAddrs) + [addr]
      ensures Pairs() == old(Pairs()) + [(addr, lastId)]
      ensures enemies == StampAll(old(enemies), |clients|, |old(enemies)|)
      ensures server.sent == old(server.sent) + [Direct(NewClient(lastId, |clients|), addr)] + Directs(enemies, addr)
    {
      lastId := lastId + 1;
      var packet := NewClient(lastId, |clients| + 1);
      server.Send(Direct(packet, addr));
      clientsAddrs := clientsAddrs + [addr];
      clients := clients + [packet];
      SendDirectEnemies(server, addr);
      assert Ids(clients) == Ids(old(clients)) + [lastId];
      assert Pairs() == old(Pairs()) + [(addr, lastId)];
    }

    /** `disconnect_client`: the address's index is removed from both
        vectors; an unknown address changes nothing. */
    method DisconnectClient(addr: SocketAddr)
      requires Valid()
      modifies this
      ensures Valid()
      ensures match IndexOf(old(clientsAddrs), addr)
        case None => clients == old(clients) && clientsAddrs == old(clientsAddrs)
        case Some(i) => clients == RemoveAt(old(clients), i) && clientsAddrs == RemoveAt(old(clientsAddrs), i)
                        && Pairs() == RemoveAt(old(Pairs()), i)
      ensures enemies == old(enemies) && lastId == old(lastId)
    {
      var idx := IndexOf(clientsAddrs, addr);
      if idx.Some? {
        ZipRemoveAt(clientsAddrs, Ids(clients), idx.value);
        assert Ids(RemoveAt(clients, idx.value)) == RemoveAt(Ids(clients), idx.value);
        RemoveAtDistinct(Ids(clients), idx.value);
        clientsAddrs := RemoveAt(clientsAddrs, idx.value);
        clients := RemoveAt(clients, idx.value);
      }
    }

    /** `on_message`: the sender's record is swapped to the front of both
        vectors, brought up to date from the packet, used (with its lifeless
        slots) to damage the other players and the enemies, floored at 0
        health and broadcast. `roll(p, k)` is the draw of pass p on target k.
        A stored record never has damage or slots, so no pass lands. */
    method OnMessage(packet: CharInfo, server: Server<CharInfo>, roll: (nat, nat) -> I16)
      requires Valid()
      requires packet.idchar in Ids(clients)
      modifies this, server
      ensures Valid()
      ensures var pos := IndexOf(Ids(old(clients)), packet.idchar).value;
        && clients == Swap(old(clients), 0, pos)[0 := SyncRecord(old(clients)[pos], packet, |old(clients)|, |old(enemies)|)]
        && clientsAddrs == Swap(old(clientsAddrs), 0, pos)
      ensures multiset(Pairs()) == multiset(old(Pairs()))
      ensures enemies == old(enemies) && lastId == old(lastId)
      ensures server.sent == old(server.sent) + [Broadcast(clients[0])]
    {
      var lenClients := |clients|;
      var pos := IndexOf(Ids(clients), packet.idchar).value;
      ghost var synced := SyncRecord(clients[pos], packet, |clients|, |enemies|);
      ghost var swapped := Swap(clients, 0, pos);
      SwapFront(clients, clientsAddrs, pos, synced, firstId, lastId);
      clients := Swap(clients, 0, pos);
      clientsAddrs := Swap(clientsAddrs, 0, pos);

      var thisChar := clients[0];
      var others := clients[1..];
      thisChar := thisChar.(totchar := Wrap16(lenClients), totenemies := Wrap16(|enemies|), idmap := packet.idmap);
      if thisChar.healt == 0 {
        thisChar := thisChar.(healt := packet.healt, x := packet.x, y := packet.y, numchar := packet.numchar);
      }
      assert thisChar.damage == 0 && thisChar.listlifeless == NoSlots;
      others := DamageChar(thisChar, others, k => roll(0, k));
      var es := DamageChar(thisChar, enemies, k => roll(1, k));
      assert others == swapped[1..] && es == enemies;
      assert !HasLifeless(NoSlots);
      others, es := LifelessPasses(thisChar.listlifeless, others, es, roll);
      thisChar := thisChar.(healt := Max0(thisChar.healt));
      assert thisChar == synced;
      assert [thisChar] + others == swapped[0 := synced];
      clients := [thisChar] + others;
      enemies := es;
      server.Send(Broadcast(thisChar));
    }

    /** One cycle of `game_loop`: drop the enemies marked `exit`, then run
        every remaining enemy's step in order, carrying the boss lock and
        broadcasting the records that are sent. `roll(i)` is enemy i's draw
        and `wall` the pixel test of `enemy_collided`. */
    method GameCycle(server: Server<CharInfo>, lock: int, roll: Rolls, wall: CharInfo -> bool) returns (lock': int)
      requires Valid() && CycleSafe(enemies, clients) && 0 <= lock <= 20
      requires forall i :: 0 <= i < |enemies| ==> 1 <= enemies[i].idmap <= mapCount
      modifies this, server
      ensures Valid()
      ensures TurnContract(TurnOf(World(width, height, bossNum, wall)))
      ensures var es := Retain(old(enemies));
        var s := Cycle(TurnOf(World(width, height, bossNum, wall)), es, old(clients), lock, roll, |es|);
        && enemies == s.enemies && clients == s.clients && lock' == s.lock
        && server.sent == old(server.sent) + s.sent
      ensures 0 <= lock' <= 20
      ensures forall i :: 0 <= i < |enemies| && Retain(old(enemies))[i].healt <= 0 ==> enemies[i].exit
      ensures clientsAddrs == old(clientsAddrs) && lastId == old(lastId)
    {
      RetainKeeps(enemies, mapCount, firstId);
      var es := Retain(enemies);
      assert CycleSafe(es, clients);
      var w := World(width, height, bossNum, wall);
      TurnOfContract(w);
      CycleKeepsTable(TurnOf(w), es, clients, lock, roll, firstId, lastId);
      var s := RunEnemies(TurnOf(w), es, clients, lock, roll, server);
      assert Ids(s.clients) == Ids(clients) && |s.clients| == |clients|;
      enemies, clients, lock' := s.enemies, s.clients, s.lock;
    }

    /** The `match` of `recv_once` on one message from the connection
        thread; a `Broadcast` or `BroadcastExcept` is `unreachable!`. */
    method Dispatch(msg: Message<CharInfo>, server: Server<CharInfo>, roll: (nat, nat) -> I16)
      requires Valid()
      requires msg.Accepted? || msg.Disconnected? || msg.Direct?
      requires msg.Accepted? ==> lastId < 0x7FFF
      requires msg.Direct? ==> msg.msg.idchar in Ids(clients)
      modifies this, server
      ensures Valid()
      ensures msg.Accepted? ==> |clients| == |old(clients)| + 1 && clientsAddrs[|clients| - 1] == msg.addr
      ensures msg.Disconnected? ==> msg.addr !in old(clientsAddrs) || |clients| == |old(clients)| - 1
      ensures msg.Direct? ==> |clients| == |old(clients)| && clients[0].idchar == msg.msg.idchar
      ensures msg.Accepted? ==>
        && lastId == old(lastId) + 1
        && clients == old(clients) + [NewClient(lastId, |old(clients)| + 1)]
        && clientsAddrs == old(clientsAddrs) + [msg.addr]
        && enemies == StampAll(old(enemies), |clients|, |old(enemies)|)
        && server.sent == old(server.sent) + [Direct(NewClient(lastId, |clients|), msg.addr)] + Directs(enemies, msg.addr)
      ensures msg.Disconnected? ==>
        && (match IndexOf(old(clientsAddrs), msg.addr)
            case None => clients == old(clients) && clientsAddrs == old(clientsAddrs)
            case Some(i) => clients == RemoveAt(old(clients), i) && clientsAddrs == RemoveAt(old(clientsAddrs), i))
        && enemies == old(enemies) && lastId == old(lastId) && server.sent == old(server.sent)
      ensures msg.Direct? ==>
        var pos := IndexOf(Ids(old(clients)), msg.msg.idchar).value;
        && clients == Swap(old(clients), 0, pos)[0 := SyncRecord(old(clients)[pos], msg.msg, |old(clients)|, |old(enemies)|)]
        && clientsAddrs == Swap(old(clientsAddrs), 0, pos)
        && enemies == old(enemies) && lastId == old(lastId)
        && server.sent == old(server.sent) + [Broadcast(clients[0])]
    {
      match msg
      case Accepted(addr) => ConnectClient(addr, server);
      case Disconnected(addr) => DisconnectClient(addr);
      case Direct(packet, _) => OnMessage(packet, server, roll);
    }
  }
}
