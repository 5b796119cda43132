/** The level-cell decoder of `loadLevel`: given an already parsed level
    record, every "foreground" layer is cleared and then walked cell by cell
    in a double countdown (columns from the right, and within a column rows
    from the bottom of the stored map); each raw tile code spawns the player,
    paints an empty tile, or is stored in the tile buffer and painted, and
    codes up to TILETYPE.ladder also become collision data. Storage rows
    run top-down and world rows bottom-up, so storage row y is world row
    height-1-y. The engine calls are recorded in the state instead of made. */
module LevelLoader {
  import opened TileBuffer

  // TILETYPE: the physics tile codes
  const BREAK := 2
  const SOLID := 3
  const LADDER := 4

  // TILEMAP_LOOKUP: the spawn-marker tile codes
  const PLAYER := 10
  const BLOB := 11
  const TRI := 12
  const SPIKE := 13
  const FIREBALL := 14
  const DEMON := 15

  /** One entry of the level's `layers` array. */
  datatype LayerRecord = LayerRecord(name: string, data: seq<int>)

  /** The parsed level document: `width`, `height` and `layers`. */
  datatype LevelRecord = LevelRecord(width: nat, height: nat, layers: seq<LayerRecord>)

  predicate IsForeground(lv: LevelRecord, k: int)
  {
    0 <= k < |lv.layers| && lv.layers[k].name == "foreground"
  }

  /** Every foreground layer holds one code per cell, row by row. */
  predicate WellFormed(lv: LevelRecord)
  {
    forall k :: 0 <= k < |lv.layers| && IsForeground(lv, k) ==> |lv.layers[k].data| == lv.width * lv.height
  }

  /** The module-level state the loader changes, with the engine calls it
      makes recorded rather than performed:
      - buffer: the tile buffer (`tileCollisionSize` and `tileData`);
      - collision: the `setTileCollisionData` writes since the collision grid
        was last cleared by `initTileCollision` (a position that is absent
        holds 0);
      - tileLayers: per layer index, the decorative tile index each
        `tileLay[i].setData` call gave a position;
      - spawns: the positions passed to `createPlayerByEntity`, in order;
      - redrawn: the layer indices `tileLay[i].redraw()` was called on, in order. */
  datatype State = State(
    buffer: Buffer,
    collision: map<Pos, int>,
    tileLayers: map<int, map<Pos, int>>,
    spawns: seq<Pos>,
    redrawn: seq<int>)

  /** The state before the first load. */
  function Initial(): State
  {
    State(Empty(), map[], map[], [], [])
  }

  /** A cell of a layer's `data` in storage coordinates: column x, and row y
      counted from the top of the map, at slot `y*width + x`. */
  datatype Cell = Cell(x: int, y: int)

  predicate InGrid(c: Cell, w: int, h: int)
  {
    0 <= c.x < w && 0 <= c.y < h
  }

  /** The vertical flip from storage row y to world row h-1-y. */
  function WorldPos(c: Cell, h: int): Pos
  {
    Pos(c.x, h - 1 - c.y)
  }

  /** The inverse of WorldPos. */
  function StorageCell(p: Pos, h: int): Cell
  {
    Cell(p.x, h - 1 - p.y)
  }

  /** Where the player is created for a marker at cell c: one unit above
      the cell's world position. */
  function SpawnPos(c: Cell, h: int): Pos
  {
    Pos(c.x, h - 1 - c.y + 1)
  }

  /** The raw code of a cell, `data[y*width + x]`. */
  function CodeAt(data: seq<int>, w: int, h: int, c: Cell): int
    requires |data| == w * h && InGrid(c, w, h)
  {
    IndexInRange(Pos(c.x, c.y), w, h);
    data[c.y * w + c.x]
  }

  /** What the loader does with one raw code. */
  datatype Action =
    | SpawnPlayer                           // the player marker: spawn, nothing else
    | EmptyTile                             // code < 1: decorative entry with index 0
    | PaintTile(index: int, collides: bool) // stored, painted with index code-1, collision if code <= ladder

  function Classify(code: int): Action
  {
    if code == PLAYER then SpawnPlayer
    else if code < 1 then EmptyTile
    else PaintTile(code - 1, code <= LADDER)
  }

  /** The decorative index a non-marker code is painted with. */
  function DecorIndex(code: int): int
  {
    if code < 1 then 0 else code - 1
  }

  /** Spawn markers for enemies (codes 11 to 15) are painted as plain
      decorative tiles, with no collision and no spawn, like any code beyond
      the physics range; only the player marker is special. */
  lemma EnemyMarkersArePlainTiles(code: int)
    requires code in {BLOB, TRI, SPIKE, FIREBALL, DEMON}
    ensures Classify(code) == PaintTile(code - 1, false)
  {
  }

  /** A state in which layer i of a level of size w x h can be decoded. */
  predicate Ready(st: State, i: int, w: int, h: int)
  {
    st.buffer.width == w && st.buffer.height == h && i in st.buffer.tileData && i in st.tileLayers
  }

  /** The body of the inner loop for one cell of layer i. */
  function DecodeCell(st: State, i: int, data: seq<int>, w: nat, h: nat, c: Cell): State
    requires Ready(st, i, w, h) && |data| == w * h && InGrid(c, w, h)
  {
    var pos := WorldPos(c, h);
    var code := CodeAt(data, w, h, c);
    match Classify(code)
    case SpawnPlayer =>
      st.(spawns := st.spawns + [SpawnPos(c, h)])
    case EmptyTile =>
      st.(tileLayers := st.tileLayers[i := st.tileLayers[i][pos := 0]])
    case PaintTile(index, collides) =>
      st.(buffer := Set(st.buffer, pos, i, code).value,
          collision := if collides then st.collision[pos := code] else st.collision,
          tileLayers := st.tileLayers[i := st.tileLayers[i][pos := index]])
  }

  /** The vertical flip is a bijection between the storage cells and the
      world positions of the grid. */
  lemma FlipIsBijective(c: Cell, p: Pos, h: int, w: int)
    ensures StorageCell(WorldPos(c, h), h) == c && WorldPos(StorageCell(p, h), h) == p
    ensures InGrid(c, w, h) <==> InBounds(WorldPos(c, h), w, h)
  {
  }

  /** What one cell does to the state, by its code c at world position p:
      - the player marker appends one spawn at (x, height-1-y+1) and
        changes nothing else;
      - a code below 1 gives p the decorative index 0 and writes no tile
        data, no collision data and no spawn;
      - any other code becomes the tile data at p, with every other
        position and layer reading as before, gives p the decorative index
        code-1, and sets the collision at p to the code exactly when the
        code is at most TILETYPE.ladder. */
  lemma CellEffect(st: State, i: int, data: seq<int>, w: nat, h: nat, c: Cell)
    requires Ready(st, i, w, h) && |data| == w * h && InGrid(c, w, h)
    ensures var r, p, code := DecodeCell(st, i, data, w, h, c), WorldPos(c, h), CodeAt(data, w, h, c);
      && InBounds(p, w, h)
      && (code == PLAYER ==> r == st.(spawns := st.spawns + [Pos(c.x, h - 1 - c.y + 1)]))
      && (code < 1 ==>
            && r.buffer == st.buffer && r.collision == st.collision && r.spawns == st.spawns
            && r.tileLayers == st.tileLayers[i := st.tileLayers[i][p := 0]])
      && (code >= 1 && code != PLAYER ==>
            && Get(r.buffer, p, i) == Ok(Num(code))
            && (forall q, l :: q != p || l != i ==> Get(r.buffer, q, l) == Get(st.buffer, q, l))
            && r.collision == (if code <= LADDER then st.collision[p := code] else st.collision)
            && r.tileLayers == st.tileLayers[i := st.tileLayers[i][p := code - 1]]
            && r.spawns == st.spawns)
  {
    var p, code := WorldPos(c, h), CodeAt(data, w, h, c);
    if code >= 1 && code != PLAYER {
      ReadAfterWrite(st.buffer, p, i, code);
      forall q, l | q != p || l != i
        ensures Get(Set(st.buffer, p, i, code).value, q, l) == Get(st.buffer, q, l)
      {
        WriteIsLocal(st.buffer, p, i, code, q, l);
      }
    }
  }

  predicate AllInGrid(cells: seq<Cell>, w: int, h: int)
  {
    forall c :: c in cells ==> InGrid(c, w, h)
  }

  predicate Distinct(cells: seq<Cell>)
  {
    forall j, k :: 0 <= j < |cells| && 0 <= k < |cells| && cells[j] == cells[k] ==> j == k
  }

  /** The first of a run of distinct cells does not recur, and the rest are distinct. */
  lemma DistinctTail(cells: seq<Cell>)
    requires Distinct(cells) && cells != []
    ensures cells[0] !in cells[1..] && Distinct(cells[1..])
  {
    forall k | 0 <= k < |cells| - 1
      ensures cells[1..][k] != cells[0]
    {
      assert cells[1..][k] == cells[k + 1];
    }
    forall j, k | 0 <= j < |cells| - 1 && 0 <= k < |cells| - 1 && cells[1..][j] == cells[1..][k]
      ensures j == k
    {
      assert cells[j + 1] == cells[k + 1];
    }
  }

  /** Decoding the given cells of layer i one after the other. */
  function DecodeCells(st: State, i: int, data: seq<int>, w: nat, h: nat, cells: seq<Cell>): (r: State)
    requires Ready(st, i, w, h) && |data| == w * h && AllInGrid(cells, w, h)
    ensures Ready(r, i, w, h)
    decreases |cells|
  {
    if cells == [] then st
    else DecodeCells(DecodeCell(st, i, data, w, h, cells[0]), i, data, w, h, cells[1..])
  }

  /** The cells of column x that the inner loop `for (y = n; y--;)` visits. */
  function ColumnOrder(x: int, n: nat): seq<Cell>
  {
    if n == 0 then [] else [Cell(x, n - 1)] + ColumnOrder(x, n - 1)
  }

  /** The cells the loops `for (x = m; x--;) for (y = h; y--;)` visit, in order. */
  function VisitOrder(m: nat, h: nat): seq<Cell>
  {
    if m == 0 then [] else ColumnOrder(m - 1, h) + VisitOrder(m - 1, h)
  }

  lemma {:induction false} ColumnOrderCells(x: int, n: nat)
    ensures |ColumnOrder(x, n)| == n
    ensures forall c :: c in ColumnOrder(x, n) <==> c.x == x && 0 <= c.y < n
    ensures Distinct(ColumnOrder(x, n))
  {
    if n > 0 {
      ColumnOrderCells(x, n - 1);
      var rest := ColumnOrder(x, n - 1);
      assert ColumnOrder(x, n) == [Cell(x, n - 1)] + rest;
      forall j, k | 0 <= j < n && 0 <= k < n && ColumnOrder(x, n)[j] == ColumnOrder(x, n)[k]
        ensures j == k
      {
        if j > 0 && k > 0 {
          assert rest[j - 1] == rest[k - 1];
        }
      }
    }
  }

  /** Two runs of distinct cells with no cell in common make one run of distinct cells. */
  lemma DistinctConcat(a: seq<Cell>, b: seq<Cell>)
    requires Distinct(a) && Distinct(b)
    requires forall c :: c in a ==> c !in b
    ensures Distinct(a + b)
  {
    var s := a + b;
    forall j | 0 <= j < |a|
      ensures s[j] in a
    {
      assert s[j] == a[j];
    }
    forall k | |a| <= k < |s|
      ensures s[k] in b
    {
      assert s[k] == b[k - |a|];
    }
    forall j, k | 0 <= j < |s| && 0 <= k < |s| && s[j] == s[k]
      ensures j == k
    {
      if j < |a| && k < |a| {
        assert a[j] == a[k];
      } else if j >= |a| && k >= |a| {
        assert b[j - |a|] == b[k - |a|];
      }
    }
  }

  /** The nested countdown loops visit every cell of the grid exactly once:
      the visit order has w*h entries, no repetition, and holds exactly the
      cells inside the grid. */
  lemma {:induction false} VisitOrderCells(w: nat, h: nat)
    ensures |VisitOrder(w, h)| == w * h
    ensures forall c :: c in VisitOrder(w, h) <==> InGrid(c, w, h)
    ensures Distinct(VisitOrder(w, h))
  {
    if w > 0 {
      VisitOrderCells(w - 1, h);
      ColumnOrderCells(w - 1, h);
      var col, rest := ColumnOrder(w - 1, h), VisitOrder(w - 1, h);
      assert VisitOrder(w, h) == col + rest;
      assert |col + rest| == h + (w - 1) * h == w * h;
      DistinctConcat(col, rest);
    }
  }

  /** The player spawns the cells produce, in visit order. */
  function SpawnsOf(data: seq<int>, w: nat, h: nat, cells: seq<Cell>): seq<Pos>
    requires |data| == w * h && AllInGrid(cells, w, h)
    decreases |cells|
  {
    if cells == [] then []
    else (if CodeAt(data, w, h, cells[0]) == PLAYER then [SpawnPos(cells[0], h)] else [])
         + SpawnsOf(data, w, h, cells[1..])
  }

  /** The decorative map entry a run of cells leaves at position q. */
  lemma {:induction false} DecorAt(st: State, i: int, data: seq<int>, w: nat, h: nat, cells: seq<Cell>, q: Pos)
    requires Ready(st, i, w, h) && |data| == w * h && AllInGrid(cells, w, h) && Distinct(cells)
    ensures var m, m' := st.tileLayers[i], DecodeCells(st, i, data, w, h, cells).tileLayers[i];
            var c := StorageCell(q, h);
            if c in cells && CodeAt(data, w, h, c) != PLAYER
            then q in m' && m'[q] == DecorIndex(CodeAt(data, w, h, c))
            else (q in m' <==> q in m) && (q in m ==> m'[q] == m[q])
    decreases |cells|
  {
    if cells != [] {
      var c0, rest := cells[0], cells[1..];
      assert cells == [c0] + rest;
      DistinctTail(cells);
      DecorAt(DecodeCell(st, i, data, w, h, c0), i, data, w, h, rest, q);
      assert StorageCell(WorldPos(c0, h), h) == c0;
    }
  }

  /** The collision entry a run of cells leaves at position q. */
  lemma {:induction false} CollisionAt(st: State, i: int, data: seq<int>, w: nat, h: nat, cells: seq<Cell>, q: Pos)
    requires Ready(st, i, w, h) && |data| == w * h && AllInGrid(cells, w, h) && Distinct(cells)
    ensures var m, m' := st.collision, DecodeCells(st, i, data, w, h, cells).collision;
            var c := StorageCell(q, h);
            if c in cells && 1 <= CodeAt(data, w, h, c) <= LADDER
            then q in m' && m'[q] == CodeAt(data, w, h, c)
            else (q in m' <==> q in m) && (q in m ==> m'[q] == m[q])
    decreases |cells|
  {
    if cells != [] {
      var c0, rest := cells[0], cells[1..];
      assert cells == [c0] + rest;
      DistinctTail(cells);
      CollisionAt(DecodeCell(st, i, data, w, h, c0), i, data, w, h, rest, q);
      assert StorageCell(WorldPos(c0, h), h) == c0;
    }
  }

  /** The tile-buffer slot of an in-bounds position q after a run of cells. */
  lemma {:induction false} TileAt(st: State, i: int, data: seq<int>, w: nat, h: nat, cells: seq<Cell>, q: Pos)
    requires Ready(st, i, w, h) && |data| == w * h && AllInGrid(cells, w, h) && Distinct(cells)
    requires InBounds(q, w, h)
    ensures var a, a' := st.buffer.tileData[i], DecodeCells(st, i, data, w, h, cells).buffer.tileData[i];
            var c := StorageCell(q, h);
            if c in cells && CodeAt(data, w, h, c) >= 1 && CodeAt(data, w, h, c) != PLAYER
            then ReadSlot(a', Index(q, w)) == Num(CodeAt(data, w, h, c))
            else ReadSlot(a', Index(q, w)) == ReadSlot(a, Index(q, w))
    decreases |cells|
  {
    if cells != [] {
      var c0, rest := cells[0], cells[1..];
      assert cells == [c0] + rest;
      DistinctTail(cells);
      assert c0 in cells;
      var p0 := WorldPos(c0, h);
      assert StorageCell(p0, h) == c0;
      if p0 != q {
        if Index(p0, w) == Index(q, w) {
          IndexInjective(p0, q, w, h);
        }
      }
      TileAt(DecodeCell(st, i, data, w, h, c0), i, data, w, h, rest, q);
    }
  }

  /** A run of cells of layer i records its spawns in order and leaves the
      grid size, the set of layers, every other layer, and the redraw list
      as they were. */
  lemma {:induction false} DecodeCellsFrame(st: State, i: int, data: seq<int>, w: nat, h: nat, cells: seq<Cell>)
    requires Ready(st, i, w, h) && |data| == w * h && AllInGrid(cells, w, h)
    ensures var r := DecodeCells(st, i, data, w, h, cells);
      && r.buffer.tileData.Keys == st.buffer.tileData.Keys
      && r.tileLayers.Keys == st.tileLayers.Keys
      && (forall j :: j in st.buffer.tileData && j != i ==> r.buffer.tileData[j] == st.buffer.tileData[j])
      && (forall j :: j in st.tileLayers && j != i ==> r.tileLayers[j] == st.tileLayers[j])
      && r.spawns == st.spawns + SpawnsOf(data, w, h, cells)
      && r.redrawn == st.redrawn
    decreases |cells|
  {
    if cells != [] {
      var st1 := DecodeCell(st, i, data, w, h, cells[0]);
      DecodeCellsFrame(st1, i, data, w, h, cells[1..]);
    }
  }

  /** The player markers among a run of distinct cells. */
  function PlayerCellsIn(data: seq<int>, w: nat, h: nat, cells: seq<Cell>): set<Cell>
    requires |data| == w * h && AllInGrid(cells, w, h)
  {
    set c | c in cells && CodeAt(data, w, h, c) == PLAYER
  }

  /** A run of distinct cells spawns once per player marker among them. */
  lemma {:induction false} SpawnCount(data: seq<int>, w: nat, h: nat, cells: seq<Cell>)
    requires |data| == w * h && AllInGrid(cells, w, h) && Distinct(cells)
    ensures |SpawnsOf(data, w, h, cells)| == |PlayerCellsIn(data, w, h, cells)|
    decreases |cells|
  {
    if cells != [] {
      var c0, rest := cells[0], cells[1..];
      assert cells == [c0] + rest;
      DistinctTail(cells);
      SpawnCount(data, w, h, rest);
      var tail := PlayerCellsIn(data, w, h, rest);
      if CodeAt(data, w, h, c0) == PLAYER {
        assert PlayerCellsIn(data, w, h, cells) == {c0} + tail;
        assert c0 !in tail;
      } else {
        assert PlayerCellsIn(data, w, h, cells) == tail;
      }
    }
  }

  // ---------------------------------------------------------------------
  // What a foreground layer looks like once loaded, stated over the grid
  // rather than over the visit order.

  /** The world positions of a w x h grid. */
  function GridPositions(w: nat, h: nat): (s: set<Pos>)
    ensures forall q :: q in s <==> InBounds(q, w, h)
  {
    var s := set x, y | 0 <= x < w && 0 <= y < h :: Pos(x, y);
    assert forall q :: InBounds(q, w, h) ==> Pos(q.x, q.y) in s;
    s
  }

  /** The decorative layer of a loaded foreground layer: every position
      except the player markers, painted with DecorIndex of its code. */
  function ExpectedDecor(data: seq<int>, w: nat, h: nat): map<Pos, int>
    requires |data| == w * h
  {
    map q | q in GridPositions(w, h) && CodeAt(data, w, h, StorageCell(q, h)) != PLAYER
      :: DecorIndex(CodeAt(data, w, h, StorageCell(q, h)))
  }

  /** What `getTileData(q, layer)` gives for a freshly loaded foreground
      layer: 0 out of bounds; the code for a code of 1 or more other than the
      player marker; otherwise a hole, since nothing was stored there. */
  function ExpectedTile(data: seq<int>, w: nat, h: nat, q: Pos): Value
    requires |data| == w * h
  {
    if !InBounds(q, w, h) then Num(0)
    else
      var code := CodeAt(data, w, h, StorageCell(q, h));
      if code >= 1 && code != PLAYER then Num(code) else Undefined
  }

  /** The collision writes of one foreground layer: the raw code at every
      position whose code is in 1..TILETYPE.ladder. */
  function PhysicsMap(data: seq<int>, w: nat, h: nat): map<Pos, int>
    requires |data| == w * h
  {
    map q | q in GridPositions(w, h) && 1 <= CodeAt(data, w, h, StorageCell(q, h)) <= LADDER
      :: CodeAt(data, w, h, StorageCell(q, h))
  }

  /** The player markers of one layer, as storage cells. */
  function PlayerCells(data: seq<int>, w: nat, h: nat): set<Cell>
    requires |data| == w * h
  {
    set x, y | 0 <= x < w && 0 <= y < h && CodeAt(data, w, h, Cell(x, y)) == PLAYER :: Cell(x, y)
  }

  /** Layer k with a new, empty TileLayer (`tileLay[i] = new TileLayer(...)`)
      and a new, empty tile array (`tileData[i] = []`). */
  function Cleared(st: State, k: int): (r: State)
    ensures Ready(r, k, st.buffer.width, st.buffer.height)
  {
    st.(buffer := st.buffer.(tileData := st.buffer.tileData[k := []]),
        tileLayers := st.tileLayers[k := map[]])
  }

  /** One pass of the outer `layers` loop, for layer k. A foreground layer
      gets a new TileLayer and an empty tile array, is decoded cell by cell
      and is redrawn; the cases "background" and "enemy", and any other
      name, do nothing. */
  function LoadLayer(st: State, lv: LevelRecord, k: nat): (r: State)
    requires k < |lv.layers| && WellFormed(lv)
    requires st.buffer.width == lv.width && st.buffer.height == lv.height
    ensures r.buffer.width == lv.width && r.buffer.height == lv.height
  {
    if lv.layers[k].name == "foreground" then
      VisitOrderCells(lv.width, lv.height);
      var done := DecodeCells(Cleared(st, k), k, lv.layers[k].data, lv.width, lv.height, VisitOrder(lv.width, lv.height));
      done.(redrawn := done.redrawn + [k])
    else st
  }

  /** The outer loop from layer k on. */
  function LoadLayers(st: State, lv: LevelRecord, k: nat): (r: State)
    requires k <= |lv.layers| && WellFormed(lv)
    requires st.buffer.width == lv.width && st.buffer.height == lv.height
    ensures r.buffer.width == lv.width && r.buffer.height == lv.height
    decreases |lv.layers| - k
  {
    if k == |lv.layers| then st else LoadLayers(LoadLayer(st, lv, k), lv, k + 1)
  }

  /** The `.then` continuation of `loadLevel`: the level size becomes the
      collision-grid size, `initTileCollision` clears the collision grid, and
      every layer is processed in order. */
  function Load(st: State, lv: LevelRecord): (r: State)
    requires WellFormed(lv)
    ensures r.buffer.width == lv.width && r.buffer.height == lv.height
  {
    var sized := st.(buffer := st.buffer.(width := lv.width, height := lv.height), collision := map[]);
    LoadLayers(sized, lv, 0)
  }

  // ---------------------------------------------------------------------
  // A foreground layer, once loaded.

  /** Every position of the grid except the player markers gets exactly one
      decorative entry, DecorIndex of the code stored at its flipped row,
      and nothing else is in the layer. */
  lemma LayerDecor(st: State, lv: LevelRecord, k: nat)
    requires WellFormed(lv) && IsForeground(lv, k)
    requires st.buffer.width == lv.width && st.buffer.height == lv.height
    ensures k in LoadLayer(st, lv, k).tileLayers
    ensures LoadLayer(st, lv, k).tileLayers[k] == ExpectedDecor(lv.layers[k].data, lv.width, lv.height)
  {
    var w, h, data := lv.width, lv.height, lv.layers[k].data;
    VisitOrderCells(w, h);
    var m := LoadLayer(st, lv, k).tileLayers[k];
    var e := ExpectedDecor(data, w, h);
    forall q
      ensures (q in m <==> q in e) && (q in e ==> m[q] == e[q])
    {
      DecorAt(Cleared(st, k), k, data, w, h, VisitOrder(w, h), q);
    }
  }

  /** After the layer is loaded, `getTileData` gives each position's code
      when it is 1 or more and not the player marker, a hole for empty cells
      and for the player marker, and 0 out of bounds. */
  lemma LayerTiles(st: State, lv: LevelRecord, k: nat, q: Pos)
    requires WellFormed(lv) && IsForeground(lv, k)
    requires st.buffer.width == lv.width && st.buffer.height == lv.height
    ensures Get(LoadLayer(st, lv, k).buffer, q, k) == Ok(ExpectedTile(lv.layers[k].data, lv.width, lv.height, q))
  {
    var w, h, data := lv.width, lv.height, lv.layers[k].data;
    VisitOrderCells(w, h);
    if InBounds(q, w, h) {
      TileAt(Cleared(st, k), k, data, w, h, VisitOrder(w, h), q);
    }
  }

  /** The layer adds a collision entry, the raw code, at every position whose
      code is in 1..TILETYPE.ladder, overriding what an earlier layer wrote
      there, and leaves every other collision entry alone. */
  lemma LayerCollision(st: State, lv: LevelRecord, k: nat)
    requires WellFormed(lv) && IsForeground(lv, k)
    requires st.buffer.width == lv.width && st.buffer.height == lv.height
    ensures LoadLayer(st, lv, k).collision == st.collision + PhysicsMap(lv.layers[k].data, lv.width, lv.height)
  {
    var w, h, data := lv.width, lv.height, lv.layers[k].data;
    VisitOrderCells(w, h);
    var m := LoadLayer(st, lv, k).collision;
    var e := st.collision + PhysicsMap(data, w, h);
    forall q
      ensures (q in m <==> q in e) && (q in e ==> m[q] == e[q])
    {
      CollisionAt(Cleared(st, k), k, data, w, h, VisitOrder(w, h), q);
    }
  }

  /** The layer appends its player spawns in visit order and one redraw of
      itself, and changes no other layer. */
  lemma LayerRecords(st: State, lv: LevelRecord, k: nat)
    requires WellFormed(lv) && IsForeground(lv, k)
    requires st.buffer.width == lv.width && st.buffer.height == lv.height
    ensures var r, w, h := LoadLayer(st, lv, k), lv.width, lv.height;
      && AllInGrid(VisitOrder(w, h), w, h)
      && r.spawns == st.spawns + SpawnsOf(lv.layers[k].data, w, h, VisitOrder(w, h))
      && r.redrawn == st.redrawn + [k]
      && r.buffer.tileData.Keys == st.buffer.tileData.Keys + {k}
      && r.tileLayers.Keys == st.tileLayers.Keys + {k}
      && (forall j :: j in st.buffer.tileData && j != k ==> r.buffer.tileData[j] == st.buffer.tileData[j])
      && (forall j :: j in st.tileLayers && j != k ==> r.tileLayers[j] == st.tileLayers[j])
  {
    VisitOrderCells(lv.width, lv.height);
    DecodeCellsFrame(Cleared(st, k), k, lv.layers[k].data, lv.width, lv.height, VisitOrder(lv.width, lv.height));
  }

  /** The layer spawns the player exactly once per player marker in it. */
  lemma LayerSpawnCount(data: seq<int>, w: nat, h: nat)
    requires |data| == w * h
    ensures AllInGrid(VisitOrder(w, h), w, h)
    ensures |SpawnsOf(data, w, h, VisitOrder(w, h))| == |PlayerCells(data, w, h)|
  {
    VisitOrderCells(w, h);
    SpawnCount(data, w, h, VisitOrder(w, h));
    var a, b := PlayerCellsIn(data, w, h, VisitOrder(w, h)), PlayerCells(data, w, h);
    forall c | c in b
      ensures c in a
    {
    }
    forall c | c in a
      ensures c in b
    {
      assert c == Cell(c.x, c.y);
    }
    assert a == b;
  }

  // ---------------------------------------------------------------------
  // The whole level.

  /** The player spawns of layers k.. of the level, layer after layer. */
  function LevelSpawns(lv: LevelRecord, k: nat): seq<Pos>
    requires WellFormed(lv) && k <= |lv.layers|
    decreases |lv.layers| - k
  {
    if k == |lv.layers| then []
    else
      VisitOrderCells(lv.width, lv.height);
      (if IsForeground(lv, k) then SpawnsOf(lv.layers[k].data, lv.width, lv.height, VisitOrder(lv.width, lv.height)) else [])
      + LevelSpawns(lv, k + 1)
  }

  /** The number of player markers in the foreground layers k.. of the level. */
  function PlayerMarkers(lv: LevelRecord, k: nat): nat
    requires WellFormed(lv) && k <= |lv.layers|
    decreases |lv.layers| - k
  {
    if k == |lv.layers| then 0
    else (if IsForeground(lv, k) then |PlayerCells(lv.layers[k].data, lv.width, lv.height)| else 0)
         + PlayerMarkers(lv, k + 1)
  }

  /** The indices of the foreground layers k.. of the level, in order. */
  function ForegroundFrom(lv: LevelRecord, k: nat): seq<int>
    requires k <= |lv.layers|
    decreases |lv.layers| - k
  {
    if k == |lv.layers| then []
    else (if IsForeground(lv, k) then [k] else []) + ForegroundFrom(lv, k + 1)
  }

  /** The collision grid once the foreground layers k.. have written their
      physics codes over acc, later layers winning. */
  function CollisionFrom(acc: map<Pos, int>, lv: LevelRecord, k: nat): map<Pos, int>
    requires WellFormed(lv) && k <= |lv.layers|
    decreases |lv.layers| - k
  {
    if k == |lv.layers| then acc
    else
      var layer := if IsForeground(lv, k) then PhysicsMap(lv.layers[k].data, lv.width, lv.height) else map[];
      CollisionFrom(acc + layer, lv, k + 1)
  }

  /** Each foreground layer contributes as many spawns as it has player markers. */
  lemma {:induction false} LevelSpawnCount(lv: LevelRecord, k: nat)
    requires WellFormed(lv) && k <= |lv.layers|
    ensures |LevelSpawns(lv, k)| == PlayerMarkers(lv, k)
    decreases |lv.layers| - k
  {
    if k < |lv.layers| {
      LevelSpawnCount(lv, k + 1);
      if IsForeground(lv, k) {
        LayerSpawnCount(lv.layers[k].data, lv.width, lv.height);
      }
    }
  }

  /** One pass of the layers loop: what it appends to the spawns and the
      redraws and what it writes over the collision grid. */
  lemma LayerStep(st: State, lv: LevelRecord, k: nat)
    requires k < |lv.layers| && WellFormed(lv)
    requires st.buffer.width == lv.width && st.buffer.height == lv.height
    ensures AllInGrid(VisitOrder(lv.width, lv.height), lv.width, lv.height)
    ensures var r, fg := LoadLayer(st, lv, k), IsForeground(lv, k);
      && r.spawns == st.spawns + (if fg then SpawnsOf(lv.layers[k].data, lv.width, lv.height, VisitOrder(lv.width, lv.height)) else [])
      && r.redrawn == st.redrawn + (if fg then [k] else [])
      && r.collision == st.collision + (if fg then PhysicsMap(lv.layers[k].data, lv.width, lv.height) else map[])
  {
    VisitOrderCells(lv.width, lv.height);
    if IsForeground(lv, k) {
      LayerRecords(st, lv, k);
      LayerCollision(st, lv, k);
    } else {
      assert st.collision + map[] == st.collision;
    }
  }

  /** What the layers loop from layer k on records: the spawns, the redraws and
      the collision writes of the foreground layers, in layer order. */
  lemma {:induction false} LoadLayersRecords(st: State, lv: LevelRecord, k: nat)
    requires k <= |lv.layers| && WellFormed(lv)
    requires st.buffer.width == lv.width && st.buffer.height == lv.height
    ensures LoadLayers(st, lv, k).spawns == st.spawns + LevelSpawns(lv, k)
    ensures LoadLayers(st, lv, k).redrawn == st.redrawn + ForegroundFrom(lv, k)
    ensures LoadLayers(st, lv, k).collision == CollisionFrom(st.collision, lv, k)
    decreases |lv.layers| - k
  {
    if k < |lv.layers| {
      var st1 := LoadLayer(st, lv, k);
      LayerStep(st, lv, k);
      LoadLayersRecords(st1, lv, k + 1);
      assert LoadLayers(st, lv, k) == LoadLayers(st1, lv, k + 1);
    }
  }

  /** The layers loop from layer k on leaves layer j alone when j was already
      passed or is not a foreground layer. */
  lemma {:induction false} LoadLayersFrame(st: State, lv: LevelRecord, k: nat, j: int)
    requires k <= |lv.layers| && WellFormed(lv)
    requires st.buffer.width == lv.width && st.buffer.height == lv.height
    requires j < k || !IsForeground(lv, j)
    ensures var r := LoadLayers(st, lv, k);
      && (j in r.buffer.tileData <==> j in st.buffer.tileData)
      && (j in st.buffer.tileData ==> r.buffer.tileData[j] == st.buffer.tileData[j])
      && (j in r.tileLayers <==> j in st.tileLayers)
      && (j in st.tileLayers ==> r.tileLayers[j] == st.tileLayers[j])
    decreases |lv.layers| - k
  {
    if k < |lv.layers| {
      var st1 := LoadLayer(st, lv, k);
      LayerFrameStep(st, lv, k, j);
      LoadLayersFrame(st1, lv, k + 1, j);
      assert LoadLayers(st, lv, k) == LoadLayers(st1, lv, k + 1);
    }
  }

  /** One pass of the layers loop, for layer k, leaves every other layer j
      alone, and layer k too when it is not a foreground layer. */
  lemma LayerFrameStep(st: State, lv: LevelRecord, k: nat, j: int)
    requires k < |lv.layers| && WellFormed(lv)
    requires st.buffer.width == lv.width && st.buffer.height == lv.height
    requires j != k || !IsForeground(lv, j)
    ensures var r := LoadLayer(st, lv, k);
      && (j in r.buffer.tileData <==> j in st.buffer.tileData)
      && (j in st.buffer.tileData ==> r.buffer.tileData[j] == st.buffer.tileData[j])
      && (j in r.tileLayers <==> j in st.tileLayers)
      && (j in st.tileLayers ==> r.tileLayers[j] == st.tileLayers[j])
  {
    if IsForeground(lv, k) {
      LayerRecords(st, lv, k);
    }
  }

  /** A foreground layer j not yet passed ends up exactly as LayerDecor and
      LayerTiles describe. */
  lemma {:induction false} LoadLayersForeground(st: State, lv: LevelRecord, k: nat, j: nat)
    requires k <= j && WellFormed(lv) && IsForeground(lv, j)
    requires st.buffer.width == lv.width && st.buffer.height == lv.height
    ensures var r := LoadLayers(st, lv, k);
      && j in r.tileLayers
      && r.tileLayers[j] == ExpectedDecor(lv.layers[j].data, lv.width, lv.height)
      && forall q :: Get(r.buffer, q, j) == Ok(ExpectedTile(lv.layers[j].data, lv.width, lv.height, q))
    decreases |lv.layers| - k
  {
    var st1 := LoadLayer(st, lv, k);
    if k < j {
      LoadLayersForeground(st1, lv, k + 1, j);
    } else {
      LayerDecor(st, lv, j);
      LayerRecords(st, lv, j);
      forall q
        ensures Get(st1.buffer, q, j) == Ok(ExpectedTile(lv.layers[j].data, lv.width, lv.height, q))
      {
        LayerTiles(st, lv, j, q);
      }
      LoadLayersFrame(st1, lv, k + 1, j);
    }
  }

  /** After `loadLevel`, every foreground layer's decorative layer and tile
      array are exactly those of its own data (a later layer with the same
      index cannot exist, and no other layer writes into it). */
  lemma LoadedForeground(st: State, lv: LevelRecord, j: nat)
    requires WellFormed(lv) && IsForeground(lv, j)
    ensures var r := Load(st, lv);
      && j in r.tileLayers
      && r.tileLayers[j] == ExpectedDecor(lv.layers[j].data, lv.width, lv.height)
      && forall q :: Get(r.buffer, q, j) == Ok(ExpectedTile(lv.layers[j].data, lv.width, lv.height, q))
  {
    var sized := st.(buffer := st.buffer.(width := lv.width, height := lv.height), collision := map[]);
    LoadLayersForeground(sized, lv, 0, j);
  }

  /** After `loadLevel`, the tile array and the decorative layer at an index
      that is not a foreground layer of the level ("background", "enemy",
      any other name, or no layer at all) are as they were before. */
  lemma LoadedOtherLayers(st: State, lv: LevelRecord, j: int)
    requires WellFormed(lv) && !IsForeground(lv, j)
    ensures var r := Load(st, lv);
      && (j in r.buffer.tileData <==> j in st.buffer.tileData)
      && (j in st.buffer.tileData ==> r.buffer.tileData[j] == st.buffer.tileData[j])
      && (j in r.tileLayers <==> j in st.tileLayers)
      && (j in st.tileLayers ==> r.tileLayers[j] == st.tileLayers[j])
  {
    var sized := st.(buffer := st.buffer.(width := lv.width, height := lv.height), collision := map[]);
    LoadLayersFrame(sized, lv, 0, j);
  }

  /** After `loadLevel`: the collision grid was cleared and then holds the
      physics codes of the foreground layers; the player is spawned once per
      player marker in a foreground layer, after any earlier spawns; each
      foreground layer is redrawn once, in layer order. */
  lemma LoadedRecords(st: State, lv: LevelRecord)
    requires WellFormed(lv)
    ensures var r := Load(st, lv);
      && r.collision == CollisionFrom(map[], lv, 0)
      && r.spawns == st.spawns + LevelSpawns(lv, 0)
      && |r.spawns| == |st.spawns| + PlayerMarkers(lv, 0)
      && r.redrawn == st.redrawn + ForegroundFrom(lv, 0)
  {
    var sized := st.(buffer := st.buffer.(width := lv.width, height := lv.height), collision := map[]);
    LoadLayersRecords(sized, lv, 0);
    LevelSpawnCount(lv, 0);
  }

  /** The grid of TwoCellLevel below, as one map per record. */
  lemma TwoCellMaps()
    ensures PhysicsMap([PLAYER, SOLID], 2, 1) == map[Pos(1, 0) := SOLID]
    ensures ExpectedDecor([PLAYER, SOLID], 2, 1) == map[Pos(1, 0) := 2]
    ensures ExpectedTile([PLAYER, SOLID], 2, 1, Pos(1, 0)) == Num(SOLID)
    ensures ExpectedTile([PLAYER, SOLID], 2, 1, Pos(0, 0)) == Undefined
  {
    var data := [PLAYER, SOLID];
    assert CodeAt(data, 2, 1, Cell(0, 0)) == PLAYER;
    assert CodeAt(data, 2, 1, Cell(1, 0)) == SOLID;
    assert forall q :: InBounds(q, 2, 1) <==> q == Pos(0, 0) || q == Pos(1, 0);
    var pm, ed := PhysicsMap(data, 2, 1), ExpectedDecor(data, 2, 1);
    assert pm.Keys == {Pos(1, 0)};
    assert ed.Keys == {Pos(1, 0)};
  }

  /** The spawns of TwoCellLevel below: the marker is visited second. */
  lemma TwoCellSpawns()
    ensures AllInGrid(VisitOrder(2, 1), 2, 1)
    ensures SpawnsOf([PLAYER, SOLID], 2, 1, VisitOrder(2, 1)) == [Pos(0, 1)]
  {
    var data := [PLAYER, SOLID];
    assert VisitOrder(2, 1) == [Cell(1, 0), Cell(0, 0)] by {
      assert ColumnOrder(1, 1) == [Cell(1, 0)];
      assert ColumnOrder(0, 1) == [Cell(0, 0)];
    }
    assert CodeAt(data, 2, 1, Cell(0, 0)) == PLAYER;
    assert CodeAt(data, 2, 1, Cell(1, 0)) == SOLID;
    assert [Cell(1, 0), Cell(0, 0)][1..] == [Cell(0, 0)];
    assert [Cell(0, 0)][1..] == [];
  }

  /** A level made of one foreground layer: loading it records exactly that
      layer's spawns, physics codes and one redraw. */
  lemma SingleForeground(st: State, lv: LevelRecord)
    requires WellFormed(lv) && |lv.layers| == 1 && IsForeground(lv, 0)
    ensures AllInGrid(VisitOrder(lv.width, lv.height), lv.width, lv.height)
    ensures var r, data := Load(st, lv), lv.layers[0].data;
      && r.collision == PhysicsMap(data, lv.width, lv.height)
      && r.spawns == st.spawns + SpawnsOf(data, lv.width, lv.height, VisitOrder(lv.width, lv.height))
      && r.redrawn == st.redrawn + [0]
  {
    LoadedRecords(st, lv);
    VisitOrderCells(lv.width, lv.height);
    var pm := PhysicsMap(lv.layers[0].data, lv.width, lv.height);
    assert CollisionFrom(map[], lv, 0) == CollisionFrom(map[] + pm, lv, 1);
    assert map[] + pm == pm;
    assert LevelSpawns(lv, 0) == SpawnsOf(lv.layers[0].data, lv.width, lv.height, VisitOrder(lv.width, lv.height)) + LevelSpawns(lv, 1);
    assert ForegroundFrom(lv, 0) == [0] + ForegroundFrom(lv, 1);
  }

  /** The two-cell level `{width: 2, height: 1, layers: [{name: "foreground",
      data: [10, 3]}]}`, loaded into the initial state: one player spawned one
      unit above world (0, 0), cell (1, 0) a solid collision tile, and one
      redraw of layer 0 ... */
  lemma TwoCellLevelRecords(lv: LevelRecord)
    requires lv == LevelRecord(2, 1, [LayerRecord("foreground", [PLAYER, SOLID])])
    ensures WellFormed(lv)
    ensures var r := Load(Initial(), lv);
      && r.spawns == [Pos(0, 1)]
      && r.collision == map[Pos(1, 0) := SOLID]
      && r.redrawn == [0]
  {
    assert IsForeground(lv, 0);
    SingleForeground(Initial(), lv);
    TwoCellMaps();
    TwoCellSpawns();
  }

  /** ... and on layer 0, cell (1, 0) holds the code 3 as tile data and is
      painted with index 2, while the marker's cell holds nothing. */
  lemma TwoCellLevelGrid(lv: LevelRecord)
    requires lv == LevelRecord(2, 1, [LayerRecord("foreground", [PLAYER, SOLID])])
    ensures WellFormed(lv)
    ensures var r := Load(Initial(), lv);
      && 0 in r.tileLayers && r.tileLayers[0] == map[Pos(1, 0) := 2]
      && Get(r.buffer, Pos(1, 0), 0) == Ok(Num(SOLID))
      && Get(r.buffer, Pos(0, 0), 0) == Ok(Undefined)
  {
    assert IsForeground(lv, 0);
    LoadedForeground(Initial(), lv, 0);
    TwoCellMaps();
  }
}
