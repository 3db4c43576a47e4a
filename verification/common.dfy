/** Shared vocabulary of the game model: optional values, grid cells, pixel
    vectors, the tile codes and the configuration constants, and the one
    place where a draw of `Math.random()` is turned into an index. */
module Common {

  datatype Option<T> = None | Some(value: T)

  /** A grid coordinate: column `x`, row `y`. */
  datatype Cell = Cell(x: int, y: int)

  /** A position or velocity in world space (pixels, pixels per second). */
  datatype Vec = Vec(x: real, y: real)

  /** A world position that lands on whole pixels (tile centres and offsets). */
  datatype Pixel = Pixel(x: int, y: int)

  /** What the registries keep of an entity: its id, its type name and the
      position the radius query reads. */
  datatype EntityRef = EntityRef(id: string, entityType: string, position: Vec)

  /** Configuration constants of the game (config.js). */
  const TileSize: int := 64
  const StageWidth: nat := 20
  const StageHeight: nat := 20

  /** Tile codes of a level or stage grid. */
  const FloorCode: int := 0
  const WallCode: int := 1
  const ExitCode: int := 2

  /** The world coordinate of the centre of tile `t` along one axis. */
  function TileCentre(t: int): (c: int)
    ensures TileSize * t < c < TileSize * (t + 1)
  {
    t * TileSize + TileSize / 2
  }

  function CellCentre(c: Cell): (p: Pixel)
    ensures p.x == TileCentre(c.x) && p.y == TileCentre(c.y)
  {
    Pixel(TileCentre(c.x), TileCentre(c.y))
  }

  predicate InGrid(c: Cell, height: nat, width: nat)
  {
    0 <= c.y < height && 0 <= c.x < width
  }

  /** A value that `Math.random()` can return. */
  predicate IsRandom(r: real)
  {
    0.0 <= r < 1.0
  }

  predicate AllRandom(rs: seq<real>)
  {
    forall i :: 0 <= i < |rs| ==> IsRandom(rs[i])
  }

  /** `Math.floor(r * n)` for a draw `r` of `Math.random()`: an index below `n`. */
  function RandomIndex(r: real, n: nat): (k: nat)
    requires IsRandom(r) && n > 0
    ensures k < n
  {
    var p := r * n as real;
    assert 0.0 <= p;
    assert p < n as real by {
      assert r * n as real < 1.0 * n as real;
    }
    p.Floor
  }

  /** Whether cell `c` lies on grid `g` and holds tile code `code`. */
  predicate CellIs(g: array2<int>, c: Cell, code: int)
    reads g
  {
    InGrid(c, g.Length0, g.Length1) && g[c.y, c.x] == code
  }

  /** The four draws that place one extra room of a generated grid. */
  datatype RoomDraw = RoomDraw(x: real, y: real, halfWidth: real, halfHeight: real)

  /** A room: centre cell and half-extents (the room spans 2 * half + 1 cells). */
  datatype Room = Room(cx: int, cy: int, halfWidth: int, halfHeight: int)

  predicate RoomDrawOk(d: RoomDraw)
  {
    IsRandom(d.x) && IsRandom(d.y) && IsRandom(d.halfWidth) && IsRandom(d.halfHeight)
  }

  /** `5 + Math.floor(Math.random() * 5)`: the number of extra rooms. */
  function RoomCount(r: real): (n: nat)
    requires IsRandom(r)
    ensures 5 <= n <= 9
  {
    5 + RandomIndex(r, 5)
  }

  /** The room a draw places: its centre keeps three cells away from every
      edge and its half-extents are 2..4. */
  function RoomFrom(d: RoomDraw): (room: Room)
    requires RoomDrawOk(d)
    ensures 3 <= room.cx <= StageWidth - 4 && 3 <= room.cy <= StageHeight - 4
    ensures 2 <= room.halfWidth <= 4 && 2 <= room.halfHeight <= 4
  {
    Room(3 + RandomIndex(d.x, StageWidth - 6), 3 + RandomIndex(d.y, StageHeight - 6),
         2 + RandomIndex(d.halfWidth, 3), 2 + RandomIndex(d.halfHeight, 3))
  }

  /** Enough well-formed room draws for the room count `countDraw` selects. */
  predicate RoomDrawsOk(countDraw: real, draws: seq<RoomDraw>)
  {
    IsRandom(countDraw) && |draws| >= RoomCount(countDraw) &&
    forall i :: 0 <= i < |draws| ==> RoomDrawOk(draws[i])
  }

  function Min(a: int, b: int): int { if a < b then a else b }
  function Max(a: int, b: int): int { if a < b then b else a }

  /** Whether cell (x, y) lies in the inclusive rectangle around (cx, cy). */
  predicate InRect(x: int, y: int, cx: int, cy: int, halfWidth: int, halfHeight: int)
  {
    cx - halfWidth <= x <= cx + halfWidth && cy - halfHeight <= y <= cy + halfHeight
  }

  /** Whether cell (x, y) lies on the L-shaped corridor from (x1, y1) to
      (x2, y2): along row y1 between the two columns, then along column x2
      between the two rows. */
  predicate OnCorridor(x: int, y: int, x1: int, y1: int, x2: int, y2: int)
  {
    (y == y1 && Min(x1, x2) <= x <= Max(x1, x2)) ||
    (x == x2 && Min(y1, y2) <= y <= Max(y1, y2))
  }

  /** Whether cell (x, y) is one of the grid's cells. */
  predicate OnMap(x: int, y: int)
  {
    0 <= y < StageHeight && 0 <= x < StageWidth
  }

  /** One extra room per draw, in draw order. */
  function RoomsFrom(draws: seq<RoomDraw>): (rooms: seq<Room>)
    requires forall i :: 0 <= i < |draws| ==> RoomDrawOk(draws[i])
    ensures |rooms| == |draws|
    ensures forall i :: 0 <= i < |draws| ==> rooms[i] == RoomFrom(draws[i])
  {
    if |draws| == 0 then [] else RoomsFrom(draws[..|draws| - 1]) + [RoomFrom(draws[|draws| - 1])]
  }

  /** The extra rooms `generateRoomsAndCorridors` places: the first
      `RoomCount(countDraw)` draws. */
  function ExtraRooms(countDraw: real, draws: seq<RoomDraw>): (rooms: seq<Room>)
    requires RoomDrawsOk(countDraw, draws)
    ensures |rooms| == RoomCount(countDraw) && 5 <= |rooms| <= 9
    ensures forall i :: 0 <= i < |rooms| ==>
      rooms[i] == RoomFrom(draws[i]) && 3 <= rooms[i].cx <= StageWidth - 4 && 3 <= rooms[i].cy <= StageHeight - 4
  {
    RoomsFrom(draws[..RoomCount(countDraw)])
  }

  /** The central room: half-extent 3 around the middle cell. */
  const CentreRoom: Room := Room(StageWidth / 2, StageHeight / 2, 3, 3)

  predicate InRoom(x: int, y: int, room: Room)
  {
    InRect(x, y, room.cx, room.cy, room.halfWidth, room.halfHeight)
  }

  /** Whether cell (x, y) is on the corridor from `room`'s centre to the middle cell. */
  predicate OnRoomCorridor(x: int, y: int, room: Room)
  {
    OnCorridor(x, y, room.cx, room.cy, CentreRoom.cx, CentreRoom.cy)
  }

  /** Whether cell (x, y) is carved by one of the first `n` extra rooms or
      their corridors. */
  predicate CarvedBy(x: int, y: int, rooms: seq<Room>, n: nat)
    requires n <= |rooms|
  {
    exists k :: 0 <= k < n && (InRoom(x, y, rooms[k]) || OnRoomCorridor(x, y, rooms[k]))
  }

  /** No element occurs twice. */
  predicate Distinct<T(==)>(s: seq<T>)
  {
    forall i, j :: 0 <= i < j < |s| ==> s[i] != s[j]
  }

  /** A sequence without repeats is its head, which its tail does not
      hold, followed by a tail without repeats. */
  lemma DistinctTail<T>(s: seq<T>)
    requires Distinct(s) && s != []
    ensures Distinct(s[1..]) && s[0] !in s[1..]
    ensures forall x :: x in s <==> x == s[0] || x in s[1..]
  {
    forall i, j | 0 <= i < j < |s[1..]| ensures s[1..][i] != s[1..][j] {
      assert s[1..][i] == s[i + 1] && s[1..][j] == s[j + 1];
    }
    forall i | 0 <= i < |s[1..]| ensures s[1..][i] != s[0] {
      assert s[1..][i] == s[i + 1];
    }
    assert s == [s[0]] + s[1..];
  }

  /** `s.filter(x => x !== v)`: every occurrence of `v` removed, the other
      elements kept in order. */
  function Without<T(==,!new)>(s: seq<T>, v: T): (r: seq<T>)
    ensures forall x :: x in r <==> x in s && x != v
    ensures Distinct(s) ==> Distinct(r)
    ensures |r| <= |s|
  {
    if |s| == 0 then []
    else
      assert Distinct(s) ==> Distinct(s[1..]) && s[0] !in s[1..] by {
        if Distinct(s) {
          forall i, j | 0 <= i < j < |s[1..]| ensures s[1..][i] != s[1..][j] {
            assert s[1..][i] == s[i + 1] && s[1..][j] == s[j + 1];
          }
        }
      }
      if s[0] == v then Without(s[1..], v)
      else [s[0]] + Without(s[1..], v)
  }

  /** Filtering distributes over concatenation, so the elements that remain
      keep their relative order. */
  lemma {:induction false} WithoutAppend<T(!new)>(a: seq<T>, b: seq<T>, v: T)
    ensures Without(a + b, v) == Without(a, v) + Without(b, v)
    decreases |a|
  {
    if |a| == 0 {
      assert a + b == b;
    } else {
      assert (a + b)[0] == a[0] && (a + b)[1..] == a[1..] + b;
      WithoutAppend(a[1..], b, v);
    }
  }

  /** Filtering out a value that does not occur changes nothing. */
  lemma {:induction false} WithoutAbsent<T(!new)>(s: seq<T>, v: T)
    requires v !in s
    ensures Without(s, v) == s
    decreases |s|
  {
    if |s| > 0 {
      assert v !in s[1..];
      WithoutAbsent(s[1..], v);
      assert [s[0]] + s[1..] == s;
    }
  }

  /** Row-major order: `a` is scanned before `b`. */
  predicate Before(a: Cell, b: Cell)
  {
    a.y < b.y || (a.y == b.y && a.x < b.x)
  }

  /** Cells listed in strictly increasing row-major order (so without repeats). */
  predicate RowMajor(cs: seq<Cell>)
  {
    forall i, j :: 0 <= i < j < |cs| ==> Before(cs[i], cs[j])
  }

  lemma RowMajorDistinct(cs: seq<Cell>)
    requires RowMajor(cs)
    ensures Distinct(cs)
  {
  }

  /** An interior floor cell with a wall among its four neighbours: where
      both generators look for exit locations. */
  predicate NextToWall(g: array2<int>, c: Cell)
    reads g
    requires g.Length0 == StageHeight && g.Length1 == StageWidth
  {
    1 <= c.y < StageHeight - 1 && 1 <= c.x < StageWidth - 1 &&
    g[c.y, c.x] == FloorCode &&
    (g[c.y - 1, c.x] == WallCode || g[c.y + 1, c.x] == WallCode ||
     g[c.y, c.x - 1] == WallCode || g[c.y, c.x + 1] == WallCode)
  }

  /** A grid's tiles as a value, row by row. */
  type Tiles = seq<seq<int>>

  /** Tiles of the configured size. */
  predicate IsTiles(t: Tiles)
  {
    |t| == StageHeight && forall y :: 0 <= y < |t| ==> |t[y]| == StageWidth
  }

  /** The tiles a grid holds in the current state. */
  ghost function Snapshot(g: array2<int>): (t: Tiles)
    reads g
    requires g.Length0 == StageHeight && g.Length1 == StageWidth
    ensures IsTiles(t)
    ensures forall y, x :: OnMap(x, y) ==> t[y][x] == g[y, x]
  {
    seq(StageHeight, y requires 0 <= y < StageHeight reads g =>
      seq(StageWidth, x requires 0 <= x < StageWidth reads g => g[y, x]))
  }

  /** NextToWall on tiles held as a value. */
  predicate NextToWallIn(t: Tiles, c: Cell)
    requires IsTiles(t)
  {
    1 <= c.y < StageHeight - 1 && 1 <= c.x < StageWidth - 1 &&
    t[c.y][c.x] == FloorCode &&
    (t[c.y - 1][c.x] == WallCode || t[c.y + 1][c.x] == WallCode ||
     t[c.y][c.x - 1] == WallCode || t[c.y][c.x + 1] == WallCode)
  }

  /** A snapshot has exactly the grid's cells next to a wall. */
  lemma SnapshotNextToWall(g: array2<int>)
    requires g.Length0 == StageHeight && g.Length1 == StageWidth
    ensures forall c :: NextToWall(g, c) <==> NextToWallIn(Snapshot(g), c)
  {
  }

  /** The decimal digit character of `d`. */
  function Digit(d: nat): (c: char)
    requires d < 10
    ensures '0' <= c <= '9'
  {
    "0123456789"[d]
  }

  /** JavaScript's conversion of a non-negative integer to its decimal
      string, as in `'stage-' + n`. */
  function NatToString(n: nat): (s: string)
    ensures 1 <= |s| && (n < 10 <==> |s| == 1)
    ensures forall i :: 0 <= i < |s| ==> '0' <= s[i] <= '9'
    ensures s[|s| - 1] == Digit(n % 10)
    decreases n
  {
    if n < 10 then [Digit(n)] else NatToString(n / 10) + [Digit(n % 10)]
  }

  lemma DigitInjective(a: nat, b: nat)
    requires a < 10 && b < 10 && Digit(a) == Digit(b)
    ensures a == b
  {
  }

  /** Different numbers print differently, so generated ids never collide. */
  lemma {:induction false} NatToStringInjective(a: nat, b: nat)
    requires NatToString(a) == NatToString(b)
    ensures a == b
    decreases a
  {
    DigitInjective(a % 10, b % 10);
    if a >= 10 && b >= 10 {
      var sa := NatToString(a);
      assert NatToString(a / 10) == sa[..|sa| - 1];
      assert NatToString(b / 10) == sa[..|sa| - 1];
      NatToStringInjective(a / 10, b / 10);
    }
  }
}
