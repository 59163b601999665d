/** heredian-client/src/heredian/structs.rs: the two records the client builds
    straight from a configuration file. These are the sprite table of a
    character sheet (one row of frames per facing) and the character's
    health and stamina block. */
module Structs {
  import opened Common
  import opened FileManager

  /** One frame of a sprite sheet: its size, its column `ix` and row `iy`,
      and flags for the last and the first frame of the row's animation. */
  datatype Sprite = Sprite(w: int, h: int, ix: int, iy: int, last: int, first: int)

  /** `DIRECTIONS`: a sheet has one row per facing. */
  const Directions := 4

  /** What is pushed for every row of a sheet whose `qt_sprites` is -1. */
  const Placeholder := Sprite(0, 0, 0, 0, 1, 1)

  /** How many times `(0..qt).rev()` runs. */
  function Columns(qt: int): (n: nat)
    ensures qt > 0 ==> n == qt
    ensures qt <= 0 ==> n == 0
  {
    if qt > 0 then qt else 0
  }

  /** The frame the inner loop builds for column `j` of row `i`: `last` is
      set on the final column, and `first` on column 0 unless that is also
      the final column. */
  function Frame(qt: int, sizeX: int, sizeY: int, i: int, j: int): (s: Sprite)
    ensures s.w == sizeX && s.h == sizeY && s.ix == j && s.iy == i
    ensures s.last == (if j == qt - 1 then 1 else 0)
    ensures s.first == (if j == 0 && j != qt - 1 then 1 else 0)
  {
    var sprite := Sprite(sizeX, sizeY, j, i, 0, 0);
    if j == qt - 1 then sprite.(last := 1)
    else if j == 0 then sprite.(first := 1)
    else sprite
  }

  /** Row `i` as the inner loop leaves it at the front of the deque: every
      column, ascending. */
  function Row(qt: int, sizeX: int, sizeY: int, i: int): (r: seq<Sprite>)
    ensures |r| == Columns(qt)
    ensures forall j :: 0 <= j < |r| ==> r[j] == Frame(qt, sizeX, sizeY, i, j)
  {
    seq(Columns(qt), j requires 0 <= j < Columns(qt) => Frame(qt, sizeX, sizeY, i, j))
  }

  /** How many sprites one iteration of the outer loop adds. */
  function BlockSize(qt: int): nat { Columns(qt) + if qt == -1 then 1 else 0 }

  /** What iteration `i` of the outer loop puts in front of the deque. */
  function Block(qt: int, sizeX: int, sizeY: int, i: int): (r: seq<Sprite>)
    ensures |r| == BlockSize(qt)
  {
    Row(qt, sizeX, sizeY, i) + (if qt == -1 then [Placeholder] else [])
  }

  /** The deque after the first `n` iterations of the outer loop: each
      block goes in front of the ones before it. */
  function Table(qt: int, sizeX: int, sizeY: int, n: nat): (r: seq<Sprite>)
    ensures |r| == n * BlockSize(qt)
    ensures n > 0 ==> r[..BlockSize(qt)] == Block(qt, sizeX, sizeY, n - 1)
  {
    if n == 0 then [] else Block(qt, sizeX, sizeY, n - 1) + Table(qt, sizeX, sizeY, n - 1)
  }

  /** The inner loop of `Sprite::from_config` for row `i`: columns
      `qt - 1` down to 0, each frame pushed to the front. */
  method PushRow(sprites: seq<Sprite>, qt: int, sizeX: int, sizeY: int, i: int) returns (out: seq<Sprite>)
    ensures out == Row(qt, sizeX, sizeY, i) + sprites
  {
    ghost var row := Row(qt, sizeX, sizeY, i);
    out := sprites;
    var j := Columns(qt);
    while j > 0
      invariant 0 <= j <= Columns(qt)
      invariant out == row[j..] + sprites
    {
      j := j - 1;
      var sprite := Sprite(sizeX, sizeY, j, i, 0, 0);
      if j == qt - 1 {
        sprite := sprite.(last := 1);
      } else if j == 0 {
        sprite := sprite.(first := 1);
      }
      assert sprite == row[j];
      assert row[j..] == [sprite] + row[j + 1..];
      out := [sprite] + out;
    }
    assert row[0..] == row;
  }

  /** The outer loop of `Sprite::from_config`, given the three values read
      from the file: for each of the four rows, a placeholder when
      `qt_sprites` is -1, then the row's frames, all pushed to the front. */
  method BuildSprites(qt: int, sizeX: int, sizeY: int) returns (sprites: seq<Sprite>)
    ensures sprites == Table(qt, sizeX, sizeY, Directions)
  {
    sprites := [];
    for i := 0 to Directions
      invariant sprites == Table(qt, sizeX, sizeY, i)
    {
      ghost var before := sprites;
      if qt == -1 {
        sprites := [Placeholder] + sprites;
      }
      sprites := PushRow(sprites, qt, sizeX, sizeY, i);
      assert sprites == Block(qt, sizeX, sizeY, i) + before;
    }
  }

  /** The table of a sheet with `qt` columns. */
  function Sprites(qt: int, sizeX: int, sizeY: int): seq<Sprite>
  {
    Table(qt, sizeX, sizeY, Directions)
  }

  /** `Sprite::from_config`: none where one of `qt_sprites`, `size_x` or
      `size_y` is missing or not an integer (the `expect` calls panic),
      otherwise the table built from their values. */
  method SpriteFromConfig(cfg: ConfigFile) returns (r: Option<seq<Sprite>>)
    ensures r.Some? <==> RequireI32(cfg, "qt_sprites").Some? && RequireI32(cfg, "size_x").Some?
                         && RequireI32(cfg, "size_y").Some?
    ensures r.Some? ==> r.value == Sprites(RequireI32(cfg, "qt_sprites").value,
                                         RequireI32(cfg, "size_x").value, RequireI32(cfg, "size_y").value)
  {
    var qt := RequireI32(cfg, "qt_sprites");
    var sizeX := RequireI32(cfg, "size_x");
    var sizeY := RequireI32(cfg, "size_y");
    if qt.None? || sizeX.None? || sizeY.None? {
      return None;
    }
    var sprites := BuildSprites(qt.value, sizeX.value, sizeY.value);
    r := Some(sprites);
  }

  /** Every frame of the first `n` blocks of a sheet with at least one
      column is the frame of its own row and column, with the row below `n`
      and the column below `qt`. */
  lemma {:induction false} TableFrames(qt: int, sizeX: int, sizeY: int, n: nat)
    requires qt > 0
    ensures forall s :: s in Table(qt, sizeX, sizeY, n) ==>
      0 <= s.iy < n && 0 <= s.ix < qt && s == Frame(qt, sizeX, sizeY, s.iy, s.ix)
  {
    if n > 0 {
      TableFrames(qt, sizeX, sizeY, n - 1);
      assert Table(qt, sizeX, sizeY, n) == Row(qt, sizeX, sizeY, n - 1) + Table(qt, sizeX, sizeY, n - 1);
    }
  }

  /** The order of the frames of a sheet whose `qt_sprites` is not -1:
      the row with `iy = 3` comes first, then rows 2, 1 and 0, each holding
      its columns in ascending order (`Row`'s contract). */
  lemma SpriteOrder(qt: int, sizeX: int, sizeY: int)
    requires qt != -1
    ensures Sprites(qt, sizeX, sizeY) == Row(qt, sizeX, sizeY, 3) + Row(qt, sizeX, sizeY, 2)
                                         + Row(qt, sizeX, sizeY, 1) + Row(qt, sizeX, sizeY, 0)
  {
    forall i: int ensures Block(qt, sizeX, sizeY, i) == Row(qt, sizeX, sizeY, i) {
    }
    assert Table(qt, sizeX, sizeY, 1) == Row(qt, sizeX, sizeY, 0);
    assert Table(qt, sizeX, sizeY, 2) == Row(qt, sizeX, sizeY, 1) + Row(qt, sizeX, sizeY, 0);
    assert Table(qt, sizeX, sizeY, 3) == Row(qt, sizeX, sizeY, 2) + Table(qt, sizeX, sizeY, 2);
  }

  /** A sheet whose `qt_sprites` is -1 yields exactly four placeholders,
      one per row. */
  lemma PlaceholderSheet(sizeX: int, sizeY: int)
    ensures Sprites(-1, sizeX, sizeY) == [Placeholder, Placeholder, Placeholder, Placeholder]
  {
    forall i: int ensures Block(-1, sizeX, sizeY, i) == [Placeholder] {
      assert Row(-1, sizeX, sizeY, i) == [];
    }
    assert Table(-1, sizeX, sizeY, 1) == [Placeholder];
    assert Table(-1, sizeX, sizeY, 2) == [Placeholder, Placeholder];
    assert Table(-1, sizeX, sizeY, 3) == [Placeholder, Placeholder, Placeholder];
  }

  /** A sheet with `qt` columns yields 4 * qt frames, none at all when `qt`
      is zero or below -1, and 4 when `qt` is -1. */
  lemma SpriteCount(qt: int, sizeX: int, sizeY: int)
    ensures |Sprites(qt, sizeX, sizeY)| == if qt == -1 then Directions else Directions * Columns(qt)
  {
    if qt == -1 {
      PlaceholderSheet(sizeX, sizeY);
    } else {
      SpriteOrder(qt, sizeX, sizeY);
    }
  }

  /** Every frame of a sheet with at least one column has the configured
      size; `last` is set exactly on column `qt - 1`, and `first` exactly on
      column 0 of a row with more than one column. */
  lemma SpriteFlags(qt: int, sizeX: int, sizeY: int)
    requires qt > 0
    ensures forall s :: s in Sprites(qt, sizeX, sizeY) ==>
      s.w == sizeX && s.h == sizeY && 0 <= s.ix < qt && 0 <= s.iy < Directions
      && (s.last == 1 <==> s.ix == qt - 1) && (s.last == 0 <==> s.ix != qt - 1)
      && (s.first == 1 <==> s.ix == 0 && qt > 1) && (s.first == 0 <==> !(s.ix == 0 && qt > 1))
  {
    TableFrames(qt, sizeX, sizeY, Directions);
  }

  /** The character block of a sheet: its name and its full and current
      health and stamina. */
  datatype InfoChar = InfoChar(name: Text, healtfull: int, staminafull: int, healt: int, stamina: int)

  /** `InfoChar::from_config`: none where `name`, `healtfull` or
      `staminafull` is missing (or, for the two numbers, not an integer),
      otherwise a character that starts at full health and full stamina. */
  function InfoCharFromConfig(cfg: ConfigFile): (r: Option<InfoChar>)
    ensures r.Some? <==> GetString(cfg, "name").Some? && RequireI32(cfg, "healtfull").Some?
                         && RequireI32(cfg, "staminafull").Some?
    ensures r.Some? ==> r.value.name == cfg.cache["name"]
                        && r.value.healtfull == RequireI32(cfg, "healtfull").value
                        && r.value.staminafull == RequireI32(cfg, "staminafull").value
    ensures r.Some? ==> r.value.healt == r.value.healtfull && r.value.stamina == r.value.staminafull
  {
    match (GetString(cfg, "name"), RequireI32(cfg, "healtfull"), RequireI32(cfg, "staminafull"))
    case (Some(name), Some(healtfull), Some(staminafull)) =>
      var info := InfoChar(name, healtfull, staminafull, 0, 0);
      Some(info.(healt := info.healtfull, stamina := info.staminafull))
    case _ => None
  }
}
