/** The module-level state of the game as the loader and the tile-buffer
    accessors change it in place: `tileCollisionSize`, the `tileData` arrays,
    and the engine calls they make (collision writes, decorative tile
    writes, player spawns, redraws), recorded on fields of one object. */
module GameState {
  import opened TileBuffer
  import opened LevelLoader

  class Game {
    var width: int
    var height: int
    var tileData: map<int, seq<Value>>
    var collision: map<Pos, int>
    var tileLayers: map<int, map<Pos, int>>
    var spawns: seq<Pos>
    var redrawn: seq<int>

    /** The state as a value, for the specification functions of LevelLoader. */
    function Model(): State
      reads this
    {
      State(Buffer(width, height, tileData), collision, tileLayers, spawns, redrawn)
    }

    /** Start-up: no layer arrays, an empty collision grid of size zero, and
        no engine call made yet. */
    constructor ()
      ensures Model() == Initial()
    {
      width, height := 0, 0;
      tileData := map[];
      collision := map[];
      tileLayers := map[];
      spawns := [];
      redrawn := [];
    }

    /** `setTileData(pos, layer, n)`. Returns Ok(true) when the code was
        stored, Ok(false) when the position is out of bounds and nothing
        happened, and TypeError when the layer array does not exist. */
    method SetTileData(p: Pos, layer: int, n: int) returns (stored: Outcome<bool>)
      modifies this
      ensures stored.Ok? <==> Set(old(Model()).buffer, p, layer, n).Ok?
      ensures stored == Ok(true) <==> InBounds(p, old(width), old(height)) && layer in old(tileData)
      ensures stored.Ok? ==> Model() == old(Model()).(buffer := Set(old(Model()).buffer, p, layer, n).value)
      ensures stored.TypeError? ==> Model() == old(Model())
    {
      if !(0 <= p.x < width && 0 <= p.y < height) {
        return Ok(false);
      }
      if layer !in tileData {
        return TypeError;
      }
      IndexInRange(p, width, height);
      var k := p.y * width + p.x;
      tileData := tileData[layer := WriteSlot(tileData[layer], k, n)];
      return Ok(true);
    }

    /** `getTileData(pos, layer)`, read from the fields. */
    function GetTileData(p: Pos, layer: int): (r: Outcome<Value>)
      reads this
      ensures r == Get(Model().buffer, p, layer)
    {
      if !(0 <= p.x < width && 0 <= p.y < height) then Ok(Num(0))
      else if layer !in tileData then TypeError
      else
        var a, k := tileData[layer], p.y * width + p.x;
        Ok(if 0 <= k < |a| then a[k] else Undefined)
    }

    /** The `.then` continuation of `loadLevel` for an already parsed level:
        the level size becomes the collision-grid size, the collision grid
        is cleared, and the layers are processed in order. */
    method LoadLevel(lv: LevelRecord)
      requires WellFormed(lv)
      modifies this
      ensures Model() == Load(old(Model()), lv)
    {
      width, height := lv.width, lv.height;
      collision := map[];
      var i := 0;
      while i < |lv.layers|
        invariant 0 <= i <= |lv.layers|
        invariant width == lv.width && height == lv.height
        invariant LoadLayers(Model(), lv, i) == Load(old(Model()), lv)
        decreases |lv.layers| - i
      {
        if lv.layers[i].name == "foreground" {
          LoadForeground(lv, i);
        }
        i := i + 1;
      }
    }

    /** The "foreground" case of the layers loop: a fresh decorative layer
        and an empty tile array for layer i, the double countdown over the
        cells, and the redraw. */
    method LoadForeground(lv: LevelRecord, i: nat)
      requires WellFormed(lv) && IsForeground(lv, i)
      requires width == lv.width && height == lv.height
      modifies this
      ensures Model() == LoadLayer(old(Model()), lv, i)
    {
      var w, h, data := lv.width, lv.height, lv.layers[i].data;
      tileLayers := tileLayers[i := map[]];
      tileData := tileData[i := []];
      VisitOrderCells(w, h);
      ghost var done := DecodeCells(Model(), i, data, w, h, VisitOrder(w, h));
      var x := w;
      while x > 0
        invariant 0 <= x <= w
        invariant Ready(Model(), i, w, h) && AllInGrid(VisitOrder(x, h), w, h)
        invariant DecodeCells(Model(), i, data, w, h, VisitOrder(x, h)) == done
        invariant redrawn == old(redrawn)
      {
        x := x - 1;
        VisitOrderCells(x, h);
        assert VisitOrder(x + 1, h) == ColumnOrder(x, h) + VisitOrder(x, h);
        DecodeColumn(i, data, w, h, x, VisitOrder(x, h));
      }
      redrawn := redrawn + [i];
    }

    /** The inner loop `for (y = height; y--;)` over column x of layer i,
        followed by the cells `later` still to be decoded: going down the
        column leaves a state from which decoding `later` ends where decoding
        the column and then `later` would. */
    method DecodeColumn(i: int, data: seq<int>, w: nat, h: nat, x: int, ghost later: seq<Cell>)
      requires Ready(Model(), i, w, h) && |data| == w * h && 0 <= x < w
      requires AllInGrid(later, w, h)
      modifies this
      ensures Ready(Model(), i, w, h) && AllInGrid(ColumnOrder(x, h) + later, w, h)
      ensures DecodeCells(Model(), i, data, w, h, later) == DecodeCells(old(Model()), i, data, w, h, ColumnOrder(x, h) + later)
      ensures redrawn == old(redrawn)
    {
      ColumnOrderCells(x, h);
      ghost var done := DecodeCells(Model(), i, data, w, h, ColumnOrder(x, h) + later);
      var y := h;
      while y > 0
        invariant 0 <= y <= h
        invariant Ready(Model(), i, w, h) && AllInGrid(ColumnOrder(x, y) + later, w, h)
        invariant DecodeCells(Model(), i, data, w, h, ColumnOrder(x, y) + later) == done
        invariant redrawn == old(redrawn)
      {
        y := y - 1;
        ghost var rest := ColumnOrder(x, y) + later;
        assert ColumnOrder(x, y + 1) + later == [Cell(x, y)] + rest;
        assert ([Cell(x, y)] + rest)[1..] == rest;
        ghost var before := Model();
        DecodeCellAt(i, data, w, h, x, y);
        assert Model() == DecodeCell(before, i, data, w, h, Cell(x, y));
      }
      assert ColumnOrder(x, 0) + later == later;
    }

    /** The body of the inner loop, for the cell in column x and storage
        row y of layer i. */
    method DecodeCellAt(i: int, data: seq<int>, w: nat, h: nat, x: int, y: int)
      requires Ready(Model(), i, w, h) && |data| == w * h && InGrid(Cell(x, y), w, h)
      modifies this
      ensures Model() == DecodeCell(old(Model()), i, data, w, h, Cell(x, y))
    {
      var pos := Pos(x, h - 1 - y);
      IndexInRange(Pos(x, y), w, h);
      var code := data[y * w + x];
      if code == PLAYER {
        spawns := spawns + [Pos(pos.x, pos.y + 1)];
        return;
      }
      var index;
      if code < 1 {
        index := 0;
      } else {
        var stored := SetTileData(pos, i, code);
        if code > 0 && code <= LADDER {
          collision := collision[pos := code];
        }
        index := code - 1;
      }
      tileLayers := tileLayers[i := tileLayers[i][pos := index]];
    }
  }
}
