/** heredian-server/src/main.rs: the combat and enemy-AI rules of the game
    server, as functions on character records. `hit`, `dir_damage` and the
    per-enemy body of `game_loop` change a record through an exclusive
    borrow, modelled here as a function returning the new record. */
module Combat {
  import opened Common
  import opened Wire
  import opened Net

  /** The facing directions the server compares against; they are the
      client's `GDPLEFT` .. `GDPDOWN` values and lib.rs's `DIRECTION_*`. */
  const GdpLeft := 1
  const GdpRight := 2
  const GdpUp := 4
  const GdpDown := 8

  predicate IsGdp(d: int)
  {
    d == GdpLeft || d == GdpRight || d == GdpUp || d == GdpDown
  }

  function Abs(v: int): nat { if v < 0 then -v else v }

  /** Rust's `/` on integers: the quotient truncated toward zero. */
  function TruncDiv(a: int, b: int): int
    requires b > 0
  {
    if a >= 0 then a / b else -((-a) / b)
  }

  /** Rust's `%` on integers: the remainder takes the dividend's sign. */
  function TruncRem(a: int, b: int): int
    requires b > 0
  {
    a - b * TruncDiv(a, b)
  }

  // ---------------------------------------------------------------------
  // hit

  /** The closed box [x, x+w] x [y, y+h] contains (tx, ty). */
  predicate InBox(t: CharInfo, tx: int, ty: int)
  {
    t.x <= tx <= t.x + t.w && t.y <= ty <= t.y + t.h
  }

  /** Horizontal knockback of a hit from direction `td`. */
  function KnockX(td: int): int { if td == GdpLeft then -3 else 0 }

  /** Vertical knockback of a hit from direction `td`: a RIGHT hit pushes the
      target down, like a DOWN hit. */
  function KnockY(td: int): int
  {
    if td == GdpUp then -3 else if td == GdpDown || td == GdpRight then 3 else 0
  }

  /** What `hit` needs to run without an i16 overflow or the `unreachable!`. */
  predicate HitSafe(t: CharInfo, tx: int, ty: int, td: int, damage: int)
  {
    && InI16(t.x + t.w) && InI16(t.y + t.h)
    && (InBox(t, tx, ty) ==>
          && IsGdp(td) && InI16(td) && InI16(t.healt - damage)
          && InI16(t.x + KnockX(td)) && InI16(t.y + KnockY(td)))
  }

  /** Only the fields a hit writes may differ. */
  predicate OnlyHitFields(c: CharInfo, c': CharInfo)
  {
    c' == c.(healt := c'.healt, dhit := c'.dhit, x := c'.x, y := c'.y)
  }

  lemma OnlyHitFieldsTrans(a: CharInfo, b: CharInfo, c: CharInfo)
    requires OnlyHitFields(a, b) && OnlyHitFields(b, c)
    ensures OnlyHitFields(a, c)
  {
  }

  /** `hit`: a target whose box holds the aim point loses `damage` health,
      with no floor, records the direction and is pushed 3 units. */
  function Hit(t: CharInfo, tx: int, ty: int, td: int, damage: int): (r: CharInfo)
    requires HitSafe(t, tx, ty, td, damage)
    ensures !InBox(t, tx, ty) ==> r == t
    ensures InBox(t, tx, ty) ==>
      && r.healt == t.healt - damage && r.dhit == td
      && Abs(r.x - t.x) + Abs(r.y - t.y) == 3
      && (td == GdpUp ==> r.x == t.x && r.y == t.y - 3)
      && (td == GdpDown ==> r.x == t.x && r.y == t.y + 3)
      && (td == GdpLeft ==> r.x == t.x - 3 && r.y == t.y)
      && (td == GdpRight ==> r.x == t.x && r.y == t.y + 3)
    ensures OnlyHitFields(t, r)
  {
    if InBox(t, tx, ty) then
      t.(healt := t.healt - damage, dhit := td, x := t.x + KnockX(td), y := t.y + KnockY(td))
    else
      t
  }

  /** A RIGHT hit lands exactly where a DOWN hit does; only `dhit` tells them apart. */
  lemma RightHitPushesDown(t: CharInfo, tx: int, ty: int, damage: int)
    requires HitSafe(t, tx, ty, GdpRight, damage)
    ensures HitSafe(t, tx, ty, GdpDown, damage)
    ensures InBox(t, tx, ty) ==>
      Hit(t, tx, ty, GdpRight, damage) == Hit(t, tx, ty, GdpDown, damage).(dhit := GdpRight)
  {
  }

  /** `hit` does not floor health: a target with 1 health hit for 5 ends at -4. */
  lemma HitDoesNotFloor()
    ensures var t := DefaultChar.(w := 10, h := 10, healt := 1);
      Hit(t, 5, 5, GdpUp, 5).healt == -4
  {
  }

  // ---------------------------------------------------------------------
  // dir_damage

  /** The guard `rand % 10 + 1 < 5` lets the attack through. With Rust's
      truncating `%`, that is exactly when the roll is non-negative and its
      last decimal digit is 4 or more. */
  predicate RollPasses(roll: I16)
    ensures RollPasses(roll) <==> roll >= 0 && roll % 10 >= 4
  {
    var r: int := roll;
    assert r < 0 ==> TruncRem(r, 10) == -((-r) % 10) by {
      if r < 0 {
        assert TruncDiv(r, 10) == -((-r) / 10);
      }
    }
    !(TruncRem(roll, 10) + 1 < 5)
  }

  /** The midpoints `(x1 + x2) / 2` and `(y1 + y2) / 2`. */
  function MidX(a: CharInfo): int { TruncDiv(a.x + (a.x + a.w), 2) }
  function MidY(a: CharInfo): int { TruncDiv(a.y + (a.y + a.h), 2) }

  function Min(a: int, b: int): int { if a <= b then a else b }
  function Max(a: int, b: int): int { if a <= b then b else a }

  /** The point an attacker facing `a.d` aims at: the middle of its facing
      edge. It never leaves the attacker's horizontal extent. */
  function AimX(a: CharInfo): (r: int)
    ensures Min(a.x, a.x + a.w) <= r <= Max(a.x, a.x + a.w)
  {
    TruncHalfBetween(Min(a.x, a.x + a.w), Max(a.x, a.x + a.w));
    if a.d == GdpLeft then a.x else if a.d == GdpRight then a.x + a.w else MidX(a)
  }

  /** The vertical coordinate of the aim point, within the attacker's
      vertical extent. */
  function AimY(a: CharInfo): (r: int)
    ensures Min(a.y, a.y + a.h) <= r <= Max(a.y, a.y + a.h)
  {
    TruncHalfBetween(Min(a.y, a.y + a.h), Max(a.y, a.y + a.h));
    if a.d == GdpUp then a.y else if a.d == GdpDown then a.y + a.h else MidY(a)
  }

  /** What `dir_damage` needs: once the roll passes, the attacker's edges and
      midpoint sums fit in i16, it faces a base direction and the hit is safe. */
  predicate DirDamageSafe(a: CharInfo, t: CharInfo, roll: I16)
  {
    RollPasses(roll) ==>
      && InI16(a.x + a.w) && InI16(a.y + a.h)
      && InI16(a.x + (a.x + a.w)) && InI16(a.y + (a.y + a.h))
      && IsGdp(a.d)
      && HitSafe(t, AimX(a), AimY(a), a.d, a.damage)
  }

  /** `dir_damage`: unless the roll stops it, `a` hits `t` at the middle of the
      edge it faces, with its own direction and damage. */
  function DirDamage(a: CharInfo, t: CharInfo, roll: I16): (r: CharInfo)
    requires DirDamageSafe(a, t, roll)
    ensures !RollPasses(roll) ==> r == t
    ensures RollPasses(roll) ==> r == Hit(t, AimX(a), AimY(a), a.d, a.damage)
    ensures OnlyHitFields(t, r)
  {
    if !RollPasses(roll) then t
    else if a.d == GdpUp then Hit(t, MidX(a), a.y, a.d, a.damage)
    else if a.d == GdpDown then Hit(t, MidX(a), a.y + a.h, a.d, a.damage)
    else if a.d == GdpLeft then Hit(t, a.x, MidY(a), a.d, a.damage)
    else Hit(t, a.x + a.w, MidY(a), a.d, a.damage)
  }

  lemma TruncHalfBetween(lo: int, hi: int)
    requires lo <= hi
    ensures lo <= TruncDiv(lo + hi, 2) <= hi
  {
  }

  /** The aim point lies on the attacker's own box, on the edge it faces. */
  lemma AimOnFacingEdge(a: CharInfo)
    requires IsGdp(a.d) && a.w >= 0 && a.h >= 0
    ensures InBox(a, AimX(a), AimY(a))
    ensures a.d == GdpUp ==> AimY(a) == a.y
    ensures a.d == GdpDown ==> AimY(a) == a.y + a.h
    ensures a.d == GdpLeft ==> AimX(a) == a.x
    ensures a.d == GdpRight ==> AimX(a) == a.x + a.w
  {
    TruncHalfBetween(a.x, a.x + a.w);
    TruncHalfBetween(a.y, a.y + a.h);
  }

  // ---------------------------------------------------------------------
  // damage_char

  /** The random roll `dir_damage` draws for the i-th target of a pass. */
  type Rolls = nat -> I16

  /** What `damage_char` needs: each same-map target's `dir_damage` is safe. */
  predicate DamageCharSafe(a: CharInfo, others: seq<CharInfo>, roll: Rolls)
  {
    a.damage > 0 ==>
      forall i :: 0 <= i < |others| && a.idmap == others[i].idmap ==> DirDamageSafe(a, others[i], roll(i))
  }

  /** `damage_char`: an attacker with positive damage runs `dir_damage` on
      every target on its map; nobody else is touched. */
  method DamageChar(a: CharInfo, others: seq<CharInfo>, roll: Rolls) returns (res: seq<CharInfo>)
    requires DamageCharSafe(a, others, roll)
    ensures |res| == |others|
    ensures forall i :: 0 <= i < |others| ==>
      res[i] == if a.damage > 0 && a.idmap == others[i].idmap then DirDamage(a, others[i], roll(i)) else others[i]
    ensures forall i :: 0 <= i < |others| ==> OnlyHitFields(others[i], res[i])
    ensures a.damage <= 0 ==> res == others
  {
    res := others;
    if a.damage > 0 {
      var i := 0;
      while i < |others|
        invariant 0 <= i <= |others| && |res| == |others|
        invariant forall k :: 0 <= k < i ==>
          res[k] == if a.idmap == others[k].idmap then DirDamage(a, others[k], roll(k)) else others[k]
        invariant res[i..] == others[i..]
      {
        if a.idmap == others[i].idmap {
          res := res[i := DirDamage(a, others[i], roll(i))];
        }
        i := i + 1;
      }
    }
  }

  // ---------------------------------------------------------------------
  // Target selection

  /** The squared distance between two records; `distance` takes its f32 root. */
  function Dist2(u: CharInfo, v: CharInfo): nat
  {
    (u.x - v.x) * (u.x - v.x) + (u.y - v.y) * (u.y - v.y)
  }

  lemma SquareZero(a: int)
    ensures a * a >= 0 && (a * a == 0 <==> a == 0)
  {
    if a > 0 {
      assert a * a >= a;
    } else if a < 0 {
      assert a * a == (-a) * (-a) >= -a;
    }
  }

  /** `distance` is symmetric, zero exactly between records at the same
      position, and no smaller than the distance along either axis. */
  lemma Dist2Facts(u: CharInfo, v: CharInfo)
    ensures Dist2(u, v) == Dist2(v, u)
    ensures Dist2(u, v) == 0 <==> u.x == v.x && u.y == v.y
    ensures (u.x - v.x) * (u.x - v.x) <= Dist2(u, v) && (u.y - v.y) * (u.y - v.y) <= Dist2(u, v)
  {
    SquareZero(u.x - v.x);
    SquareZero(u.y - v.y);
  }

  /** A square no larger than `v * v` has a root no larger than `v`. */
  lemma SquareRoot(a: int, v: int)
    requires v >= 0 && a * a <= v * v
    ensures Abs(a) <= v
  {
    var b := Abs(a);
    assert b * b == a * a;
  }

  /** `dist <= vision as f32`, compared on squares. A client in vision is
      within `vision` of the enemy along each axis. */
  predicate InVision(e: CharInfo, c: CharInfo)
    ensures InVision(e, c) ==> Abs(c.x - e.x) <= e.vision && Abs(c.y - e.y) <= e.vision
  {
    if e.vision >= 0 && Dist2(c, e) <= e.vision * e.vision then
      Dist2Facts(c, e);
      SquareRoot(c.x - e.x, e.vision);
      SquareRoot(c.y - e.y, e.vision);
      true
    else false
  }

  /** The same-map client at index `i` is among the farthest from `e`. */
  predicate IsFarthest(cs: seq<CharInfo>, e: CharInfo, i: nat)
  {
    && i < |cs| && cs[i].idmap == e.idmap
    && (forall j :: 0 <= j < |cs| && cs[j].idmap == e.idmap ==> Dist2(cs[j], e) <= Dist2(cs[i], e))
    && (forall j :: i < j < |cs| && cs[j].idmap == e.idmap ==> Dist2(cs[j], e) < Dist2(cs[i], e))
  }

  /** The `filter(same map).max_by(distance)` over the first `n` clients:
      `max_by` keeps the later element on ties. */
  function FarthestIn(cs: seq<CharInfo>, e: CharInfo, n: nat): (r: Option<nat>)
    requires n <= |cs|
    ensures r.None? <==> forall j :: 0 <= j < n ==> cs[j].idmap != e.idmap
    ensures r.Some? ==> r.value < n && cs[r.value].idmap == e.idmap
  {
    if n == 0 then None
    else
      var prev := FarthestIn(cs, e, n - 1);
      if cs[n - 1].idmap == e.idmap && (prev.None? || Dist2(cs[prev.value], e) <= Dist2(cs[n - 1], e))
      then Some(n - 1)
      else prev
  }

  /** The fold picks the farthest same-map client among the first `n`, and
      the last of the farthest ones. */
  lemma {:induction false} FarthestInIsFarthest(cs: seq<CharInfo>, e: CharInfo, n: nat)
    requires n <= |cs| && FarthestIn(cs, e, n).Some?
    ensures IsFarthest(cs[..n], e, FarthestIn(cs, e, n).value)
  {
    var prev := FarthestIn(cs, e, n - 1);
    assert cs[..n - 1] == cs[..n][..n - 1];
    if prev.Some? {
      FarthestInIsFarthest(cs, e, n - 1);
    }
  }

  /** The client an enemy chases: the farthest one on its map, the last of
      them on a tie; `None` when no client shares its map. */
  function Farthest(cs: seq<CharInfo>, e: CharInfo): (r: Option<nat>)
    ensures r.None? <==> forall j :: 0 <= j < |cs| ==> cs[j].idmap != e.idmap
    ensures r.Some? ==> r.value < |cs| && cs[r.value].idmap == e.idmap
  {
    FarthestIn(cs, e, |cs|)
  }

  /** `Farthest` is the reference definition's choice: the farthest client on
      the enemy's map, and no later client is as far. */
  lemma FarthestIsFarthest(cs: seq<CharInfo>, e: CharInfo)
    requires Farthest(cs, e).Some?
    ensures IsFarthest(cs, e, Farthest(cs, e).value)
  {
    FarthestInIsFarthest(cs, e, |cs|);
    assert cs[..|cs|] == cs;
  }

  /** The farthest client is unique: at most one index satisfies `IsFarthest`. */
  lemma FarthestUnique(cs: seq<CharInfo>, e: CharInfo, i: nat, j: nat)
    requires IsFarthest(cs, e, i) && IsFarthest(cs, e, j)
    ensures i == j
  {
    var di, dj := Dist2(cs[i], e), Dist2(cs[j], e);
    assert dj <= di && di <= dj;
  }

  // ---------------------------------------------------------------------
  // The per-enemy step of game_loop

  /** What `game_loop` knows about the world: the map size, which `numchar`
      is the boss, and the pixel test of `enemy_collided` as an oracle. */
  datatype World = World(width: I16, height: I16, bossNum: I16, wall: CharInfo -> bool)

  /** `enemy_collided`: off the top or left edge, or past the bottom, is a
      collision; otherwise the map's pixels decide. The integer guards do
      not check the right edge: past it only the pixel test can object. */
  predicate Collided(w: World, e: CharInfo)
    ensures e.y < 0 || e.x < 0 || e.y + e.h > w.height ==> Collided(w, e)
    ensures e.x >= 0 && e.y >= 0 && e.y + e.h <= w.height ==> (Collided(w, e) <==> w.wall(e))
  {
    e.y < 0 || e.x < 0 || e.y + e.h > w.height || w.wall(e)
  }

  /** The axis-aligned boxes of `e` and `c` touch or overlap. */
  predicate Overlap(e: CharInfo, c: CharInfo)
  {
    e.x <= c.x + c.w && c.x <= e.x + e.w && e.y <= c.y + c.h && c.y <= e.y + e.h
  }

  /** The hit test is symmetric: `e` touches `c` exactly when `c` touches `e`,
      and a record with a box of non-negative size touches itself. */
  lemma OverlapSymmetric(e: CharInfo, c: CharInfo)
    ensures Overlap(e, c) <==> Overlap(c, e)
    ensures e.w >= 0 && e.h >= 0 ==> Overlap(e, e)
  {
  }

  /** Bounds on an enemy that keep one step of `game_loop` inside i16. */
  const CoordBound := 8192
  const SizeBound := 1024
  const DamageBound := 256
  const HealtBound := 4096
  const EnemyBound := 100

  predicate EnemySane(e: CharInfo)
  {
    && Abs(e.x) <= CoordBound && Abs(e.y) <= CoordBound
    && Abs(e.w) <= SizeBound && Abs(e.h) <= SizeBound && Abs(e.step) <= SizeBound
    && Abs(e.damage) <= DamageBound && IsGdp(e.d)
  }

  /** Bounds on a client that has taken at most `k` hits this cycle. */
  predicate ClientSane(c: CharInfo, k: nat)
  {
    && Abs(c.x) <= CoordBound + 3 * k && Abs(c.y) <= CoordBound + 3 * k
    && Abs(c.w) <= SizeBound && Abs(c.h) <= SizeBound
    && Abs(c.healt) <= HealtBound + DamageBound * k
  }

  /** The x-axis move of a regular enemy toward `c`. Moving right and hitting
      a wall backs off by `step - 1`, so a blocked enemy still gains one unit;
      moving left backs off by `2 * step`. */
  function MoveX(w: World, e: CharInfo, c: CharInfo, dx: int, dy: int): (r: CharInfo)
    requires EnemySane(e) && Abs(c.x) <= CoordBound + 3 * EnemyBound
    ensures r == e.(x := r.x, d := r.d)
    ensures e.x < c.x ==> (r.x == e.x + e.step || r.x == e.x + 1)
    ensures IsGdp(r.d) && Abs(r.x) <= CoordBound + 2 * SizeBound
  {
    if e.x < c.x then
      var e1 := e.(x := e.x + e.step, d := GdpRight);
      var e2 := if Collided(w, e1) then e1.(x := e1.x - (e1.step - 1)) else e1;
      e2.(d := if dx > dy then GdpLeft else if e2.y < c.y then GdpDown else GdpUp)
    else
      var e1 := if dx > e.step * 2 then e.(x := e.x - e.step) else e;
      var e2 := e1.(d := GdpLeft);
      var e3 := if Collided(w, e2) then e2.(x := e2.x + e2.step * 2) else e2;
      e3.(d := if dx > dy then GdpLeft else if e3.y < c.y then GdpDown else GdpUp)
  }

  /** The y-axis move of a regular enemy toward `c`; both directions back off
      by `2 * step` on a collision. */
  function MoveY(w: World, e: CharInfo, c: CharInfo, dx: int, dy: int): (r: CharInfo)
    requires Abs(e.y) <= CoordBound && Abs(e.x) <= CoordBound + 2 * SizeBound
    requires Abs(e.h) <= SizeBound && Abs(e.step) <= SizeBound
    ensures r == e.(y := r.y, d := r.d)
    ensures e.y < c.y ==> (r.y == e.y + e.step || r.y == e.y - e.step)
    ensures IsGdp(r.d)
  {
    if e.y < c.y then
      var e1 := e.(y := e.y + e.step, d := GdpDown);
      var e2 := if Collided(w, e1) then e1.(y := e1.y - e1.step * 2) else e1;
      e2.(d := if dy > dx then GdpDown else if e2.x < c.x then GdpRight else GdpLeft)
    else
      var e1 := if dy > e.step * 2 then e.(y := e.y - e.step) else e;
      var e2 := e1.(d := GdpUp);
      var e3 := if Collided(w, e2) then e2.(y := e2.y + e2.step * 2) else e2;
      e3.(d := if dy > dx then GdpUp else if e3.x < c.x then GdpRight else GdpLeft)
  }

  /** The boss's reply when the lock counter is free: set `a = 3`, face the
      dominant axis and, unless already next to the target, step along it. */
  function BossStrike(e: CharInfo, c: CharInfo, dx: int, dy: int): (r: CharInfo)
    requires EnemySane(e)
    ensures r == e.(a := 3, x := r.x, y := r.y, d := r.d) && IsGdp(r.d)
  {
    var adjacent := (dx < e.step + e.w && e.x < c.x) || (dy < e.step + e.h && e.y < c.y);
    var e1 := e.(a := 3);
    if dx >= dy then
      if e.x < c.x then e1.(x := if adjacent then e.x else e.x + e.step, d := GdpRight)
      else e1.(x := if adjacent then e.x else e.x - e.step, d := GdpLeft)
    else
      if e.y < c.y then e1.(y := if adjacent then e.y else e.y + e.step, d := GdpDown)
      else e1.(y := if adjacent then e.y else e.y - e.step, d := GdpUp)
  }

  /** What one enemy's step yields: its new record, the clients after its
      attack, the shared boss lock and whether it is broadcast. */
  datatype Turn = Turn(enemy: CharInfo, clients: seq<CharInfo>, lock: int, send: bool)

  /** What one step of `game_loop` needs to stay inside i16. */
  predicate TurnSafe(e: CharInfo, cs: seq<CharInfo>)
  {
    EnemySane(e) && forall j :: 0 <= j < |cs| ==> ClientSane(cs[j], EnemyBound - 1)
  }

  lemma SaneAttackIsSafe(e: CharInfo, c: CharInfo, roll: I16)
    requires EnemySane(e) && ClientSane(c, EnemyBound - 1)
    ensures DirDamageSafe(e, c, roll)
  {
  }

  /** A bounded attacker's `dir_damage` is safe on a client that has taken
      fewer than `EnemyBound` hits, and leaves it with one hit more. */
  lemma DirDamageKeepsSane(a: CharInfo, c: CharInfo, roll: I16, k: nat)
    requires EnemySane(a) && ClientSane(c, k) && k < EnemyBound
    ensures DirDamageSafe(a, c, roll) && ClientSane(DirDamage(a, c, roll), k + 1)
  {
  }

  /** A living enemy's step once it has a target `cs[ti]` in sight: it
      attacks (when the boxes touch), then a boss waits for or takes the
      shared lock and a regular enemy moves. `dx` and `dy` are measured
      before the attack, the moves toward the target after it. */
  function ChaseTurn(w: World, e: CharInfo, cs: seq<CharInfo>, ti: nat, lock: int, roll: I16): (t: Turn)
    requires TurnSafe(e, cs) && ti < |cs|
    ensures |t.clients| == |cs|
    ensures forall j :: 0 <= j < |cs| ==> OnlyHitFields(cs[j], t.clients[j])
    ensures t.enemy.idchar == e.idchar && t.enemy.idmap == e.idmap && t.enemy.healt == e.healt
  {
    var c := cs[ti];
    var e1 := e.(a := 1);
    var dx := Abs(c.x - e.x);
    var dy := Abs(c.y - e.y);
    SaneAttackIsSafe(e1, c, roll);
    var c1 := if Overlap(e, c) then DirDamage(e1, c, roll) else c;
    var cs1 := cs[ti := c1];
    if e.numchar == w.bossNum then
      if lock > 0 then Turn(e1, cs1, lock - 1, false)
      else Turn(BossStrike(e1, c1, dx, dy), cs1, 20, true)
    else
      var e2 := MoveX(w, e1, c1, dx, dy);
      Turn(MoveY(w, e2, c1, dx, dy), cs1, lock, true)
  }

  /** The body of the `for enemy in enemies.iter_mut()` loop of `game_loop`
      for one enemy, with `roll` the draw its `dir_damage` would make. */
  function EnemyTurn(w: World, e: CharInfo, cs: seq<CharInfo>, lock: int, roll: I16): (t: Turn)
    requires TurnSafe(e, cs)
    ensures |t.clients| == |cs|
    ensures forall j :: 0 <= j < |cs| ==> OnlyHitFields(cs[j], t.clients[j])
    ensures t.enemy.idchar == e.idchar && t.enemy.idmap == e.idmap && t.enemy.healt == e.healt
  {
    if e.healt <= 0 then Turn(e.(exit := true), cs, lock, true)
    else match Farthest(cs, e)
      case None => Turn(e, cs, lock, false)
      case Some(ti) =>
        if !InVision(e, cs[ti]) then Turn(e.(a := 0), cs, lock, true)
        else ChaseTurn(w, e, cs, ti, lock, roll)
  }

  /** A dead enemy is marked `exit`, does not move and is still broadcast. */
  lemma DeadEnemyExits(w: World, e: CharInfo, cs: seq<CharInfo>, lock: int, roll: I16)
    requires TurnSafe(e, cs) && e.healt <= 0
    ensures var t := EnemyTurn(w, e, cs, lock, roll);
      t.enemy == e.(exit := true) && t.clients == cs && t.lock == lock && t.send
  {
  }

  /** A living enemy stays silent exactly when no client shares its map, or
      when it is a boss waiting for the lock; it never sets `exit` itself. */
  lemma SilentTurns(w: World, e: CharInfo, cs: seq<CharInfo>, lock: int, roll: I16)
    requires TurnSafe(e, cs) && e.healt > 0
    ensures var t := EnemyTurn(w, e, cs, lock, roll);
      && t.enemy.exit == e.exit
      && (!t.send <==>
            || (forall j :: 0 <= j < |cs| ==> cs[j].idmap != e.idmap)
            || (e.numchar == w.bossNum && lock > 0 && InVision(e, cs[Farthest(cs, e).value])))
      && ((forall j :: 0 <= j < |cs| ==> cs[j].idmap != e.idmap) ==> t.enemy == e && t.clients == cs)
  {
  }

  /** A target out of sight only resets the enemy's action to idle. */
  lemma OutOfVisionIdles(w: World, e: CharInfo, cs: seq<CharInfo>, lock: int, roll: I16)
    requires TurnSafe(e, cs) && e.healt > 0
    requires Farthest(cs, e).Some? && !InVision(e, cs[Farthest(cs, e).value])
    ensures var t := EnemyTurn(w, e, cs, lock, roll);
      t.enemy == e.(a := 0) && t.clients == cs && t.lock == lock && t.send
  {
  }

  /** Only the chased client can be hurt, and only when the two boxes touch. */
  lemma OnlyTargetIsHit(w: World, e: CharInfo, cs: seq<CharInfo>, lock: int, roll: I16, j: nat)
    requires TurnSafe(e, cs) && j < |cs|
    requires EnemyTurn(w, e, cs, lock, roll).clients[j] != cs[j]
    ensures e.healt > 0 && Farthest(cs, e) == Some(j)
    ensures InVision(e, cs[j]) && Overlap(e, cs[j]) && RollPasses(roll)
    ensures EnemyTurn(w, e, cs, lock, roll).clients[j] == DirDamage(e.(a := 1), cs[j], roll)
  {
  }

  /** The boss cadence: all bosses share one lock counter in 0..20. While it
      is positive a boss in sight only counts it down and is not broadcast;
      at zero it strikes, resetting the counter to 20. */
  lemma BossLock(w: World, e: CharInfo, cs: seq<CharInfo>, lock: int, roll: I16)
    requires TurnSafe(e, cs) && e.healt > 0 && e.numchar == w.bossNum
    requires Farthest(cs, e).Some? && InVision(e, cs[Farthest(cs, e).value])
    ensures var t := EnemyTurn(w, e, cs, lock, roll);
      && (lock > 0 ==> t.lock == lock - 1 && !t.send && t.enemy == e.(a := 1))
      && (lock <= 0 ==> t.lock == 20 && t.send && t.enemy.a == 3)
  {
  }

  /** When the boss strikes it moves at most `step` along one axis, and not
      at all when it is already next to its target. */
  lemma BossStrikeMoves(e: CharInfo, c: CharInfo, dx: int, dy: int)
    requires EnemySane(e)
    ensures var r := BossStrike(e, c, dx, dy);
      && (r.x == e.x || r.y == e.y)
      && Abs(r.x - e.x) + Abs(r.y - e.y) <= Abs(e.step)
      && (((dx < e.step + e.w && e.x < c.x) || (dy < e.step + e.h && e.y < c.y)) ==> r.x == e.x && r.y == e.y)
      && (dx >= dy ==> r.y == e.y && r.d == (if e.x < c.x then GdpRight else GdpLeft))
      && (dx < dy ==> r.x == e.x && r.d == (if e.y < c.y then GdpDown else GdpUp))
  {
  }

  /** Every step keeps an enemy facing a base direction and the shared lock
      in 0..20, the two facts the next cycle relies on. */
  lemma TurnKeepsInvariants(w: World, e: CharInfo, cs: seq<CharInfo>, lock: int, roll: I16)
    requires TurnSafe(e, cs)
    ensures var t := EnemyTurn(w, e, cs, lock, roll);
      IsGdp(t.enemy.d) && (0 <= lock <= 20 ==> 0 <= t.lock <= 20)
  {
  }

  /** One step hits a client at most once, so a client that had taken at
      most `k` hits has taken at most `k + 1` afterwards. */
  lemma TurnKeepsClientSane(w: World, e: CharInfo, cs: seq<CharInfo>, lock: int, roll: I16, j: nat, k: nat)
    requires TurnSafe(e, cs) && j < |cs| && k < EnemyBound && ClientSane(cs[j], k)
    ensures ClientSane(EnemyTurn(w, e, cs, lock, roll).clients[j], k + 1)
  {
    if EnemyTurn(w, e, cs, lock, roll).clients[j] != cs[j] {
      OnlyTargetIsHit(w, e, cs, lock, roll, j);
      DirDamageKeepsSane(e.(a := 1), cs[j], roll, k);
    }
  }

  /** What a cycle of `game_loop` relies on about one enemy's turn `t`. */
  ghost predicate TurnOk(e: CharInfo, cs: seq<CharInfo>, lock: int, t: Turn)
  {
    && |t.clients| == |cs|
    && (forall j :: 0 <= j < |cs| ==> OnlyHitFields(cs[j], t.clients[j]))
    && (forall j, k: nat :: 0 <= j < |cs| && k < EnemyBound && ClientSane(cs[j], k) ==> ClientSane(t.clients[j], k + 1))
    && t.enemy.idchar == e.idchar && t.enemy.idmap == e.idmap
    && (e.healt <= 0 ==> t.enemy.exit)
    && IsGdp(t.enemy.d)
    && (0 <= lock <= 20 ==> 0 <= t.lock <= 20)
  }

  lemma EnemyTurnOk(w: World, e: CharInfo, cs: seq<CharInfo>, lock: int, roll: I16)
    requires TurnSafe(e, cs)
    ensures TurnOk(e, cs, lock, EnemyTurn(w, e, cs, lock, roll))
  {
    var t := EnemyTurn(w, e, cs, lock, roll);
    forall j, k: nat | 0 <= j < |cs| && k < EnemyBound && ClientSane(cs[j], k) ensures ClientSane(t.clients[j], k + 1) {
      TurnKeepsClientSane(w, e, cs, lock, roll, j, k);
    }
    TurnKeepsInvariants(w, e, cs, lock, roll);
    if e.healt <= 0 {
      DeadEnemyExits(w, e, cs, lock, roll);
      assert t.enemy.exit;
    }
    assert |t.clients| == |cs| && forall j :: 0 <= j < |cs| ==> OnlyHitFields(cs[j], t.clients[j]);
    assert t.enemy.idchar == e.idchar && t.enemy.idmap == e.idmap;
    assert IsGdp(t.enemy.d) && (0 <= lock <= 20 ==> 0 <= t.lock <= 20);
  }

  /** A regular enemy moving right that runs into a wall undoes only
      `step - 1`, ending one unit right of where it started. */
  lemma RightRollbackGainsOne(w: World, e: CharInfo, c: CharInfo, dx: int, dy: int)
    requires EnemySane(e) && Abs(c.x) <= CoordBound + 3 * EnemyBound
    requires e.x < c.x && Collided(w, e.(x := e.x + e.step, d := GdpRight))
    ensures MoveX(w, e, c, dx, dy).x == e.x + 1
  {
  }

  /** A regular enemy moving left steps only when more than two steps away;
      a wall pushes it back by two steps, so a blocked step ends one step
      right of where it started. */
  lemma LeftMoveRule(w: World, e: CharInfo, c: CharInfo, dx: int, dy: int)
    requires EnemySane(e) && Abs(c.x) <= CoordBound + 3 * EnemyBound && e.x >= c.x
    ensures var r := MoveX(w, e, c, dx, dy);
      var x1 := if dx > e.step * 2 then e.x - e.step else e.x;
      r.x == (if Collided(w, e.(x := x1, d := GdpLeft)) then x1 + 2 * e.step else x1)
  {
  }

  /** With no wall in the way a regular enemy closes in by `step` on each
      axis where the target lies right or below. */
  lemma FreeMoveCloses(w: World, e: CharInfo, c: CharInfo, dx: int, dy: int)
    requires EnemySane(e) && Abs(c.x) <= CoordBound + 3 * EnemyBound
    requires e.x < c.x && !Collided(w, e.(x := e.x + e.step, d := GdpRight))
    ensures MoveX(w, e, c, dx, dy).x == e.x + e.step
    ensures var r := MoveX(w, e, c, dx, dy);
      r.y < c.y && !Collided(w, r.(y := r.y + r.step, d := GdpDown)) ==>
        MoveY(w, r, c, dx, dy).y == r.y + r.step
  {
  }
  /** A regular enemy moving down that runs into a wall backs off two steps,
      ending one step above where it started. */
  lemma DownRollback(w: World, e: CharInfo, c: CharInfo, dx: int, dy: int)
    requires Abs(e.y) <= CoordBound && Abs(e.x) <= CoordBound + 2 * SizeBound
    requires Abs(e.h) <= SizeBound && Abs(e.step) <= SizeBound
    requires e.y < c.y && Collided(w, e.(y := e.y + e.step, d := GdpDown))
    ensures MoveY(w, e, c, dx, dy).y == e.y - e.step
  {
  }

  /** A regular enemy moving up steps only when more than two steps away;
      a wall pushes it back down by two steps. */
  lemma UpMoveRule(w: World, e: CharInfo, c: CharInfo, dx: int, dy: int)
    requires Abs(e.y) <= CoordBound && Abs(e.x) <= CoordBound + 2 * SizeBound
    requires Abs(e.h) <= SizeBound && Abs(e.step) <= SizeBound
    requires e.y >= c.y
    ensures var r := MoveY(w, e, c, dx, dy);
      var y1 := if dy > e.step * 2 then e.y - e.step else e.y;
      r.y == (if Collided(w, e.(y := y1, d := GdpUp)) then y1 + 2 * e.step else y1)
  {
  }

  /** Where an enemy faces after its x-axis move: LEFT whenever the target is
      farther along x than along y (even when it has just moved right),
      otherwise toward the target along y. */
  lemma MoveXFacing(w: World, e: CharInfo, c: CharInfo, dx: int, dy: int)
    requires EnemySane(e) && Abs(c.x) <= CoordBound + 3 * EnemyBound
    ensures var r := MoveX(w, e, c, dx, dy);
      r.d == (if dx > dy then GdpLeft else if e.y < c.y then GdpDown else GdpUp)
  {
  }

  /** Where an enemy faces after its y-axis move: toward the target along y
      when it is farther along y than along x, otherwise toward it along x. */
  lemma MoveYFacing(w: World, e: CharInfo, c: CharInfo, dx: int, dy: int)
    requires Abs(e.y) <= CoordBound && Abs(e.x) <= CoordBound + 2 * SizeBound
    requires Abs(e.h) <= SizeBound && Abs(e.step) <= SizeBound
    ensures var r := MoveY(w, e, c, dx, dy);
      r.d == (if dy > dx then (if e.y < c.y then GdpDown else GdpUp)
              else if e.x < c.x then GdpRight else GdpLeft)
  {
  }

  /** The chased client is the one attacked: when the boxes touch it takes
      the enemy's `dir_damage` (with `a` already set to 1) and every other
      client is left as it was; when they do not, nobody is touched. */
  lemma TargetIsAttacked(w: World, e: CharInfo, cs: seq<CharInfo>, lock: int, roll: I16, ti: nat)
    requires TurnSafe(e, cs) && e.healt > 0 && Farthest(cs, e) == Some(ti)
    requires InVision(e, cs[ti])
    ensures Overlap(e, cs[ti]) ==>
      EnemyTurn(w, e, cs, lock, roll).clients == cs[ti := DirDamage(e.(a := 1), cs[ti], roll)]
    ensures !Overlap(e, cs[ti]) ==> EnemyTurn(w, e, cs, lock, roll).clients == cs
  {
  }
}
