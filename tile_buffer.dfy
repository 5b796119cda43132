/** The bounds-checked tile-data buffer of the game: one flat, row-major
    array of tile codes per layer, read by `getTileData` and written by
    `setTileData`, both of which check the position against the size of the
    tile-collision grid first. Positions are integer grid positions. */
module TileBuffer {

  /** A grid position in world space (x to the right, y upwards). */
  datatype Pos = Pos(x: int, y: int)

  /** What one slot of a JavaScript array holds: a number, or nothing at
      all (a hole, which reads as `undefined`). */
  datatype Value = Undefined | Num(n: int)

  /** The value of a JavaScript expression that may throw a `TypeError`
      (indexing into a layer array that was never created). */
  datatype Outcome<T> = Ok(value: T) | TypeError

  /** The tile buffer: the size of the tile-collision grid (`tileCollisionSize`)
      and the per-layer arrays (`tileData[layer]`). The outer array is sparse:
      a layer index that was never assigned has no entry. */
  datatype Buffer = Buffer(width: int, height: int, tileData: map<int, seq<Value>>)

  /** The buffer before any level is loaded: the grid has size zero. */
  function Empty(): (b: Buffer)
    ensures forall p, layer :: Get(b, p, layer) == Ok(Num(0))
  {
    Buffer(0, 0, map[])
  }

  /** The bounds check `pos.arrayCheck(tileCollisionSize)`. */
  predicate InBounds(p: Pos, width: int, height: int)
  {
    0 <= p.x < width && 0 <= p.y < height
  }

  /** The row-major slot of a position, `y*width + x`. */
  function Index(p: Pos, width: int): int
  {
    p.y * width + p.x
  }

  /** An in-bounds position has a slot in `[0, width*height)`. */
  lemma IndexInRange(p: Pos, width: int, height: int)
    requires InBounds(p, width, height)
    ensures 0 <= Index(p, width) < width * height
  {
    assert 0 <= p.y * width;
    assert p.y * width <= (height - 1) * width by {
      assert (height - 1) * width - p.y * width == (height - 1 - p.y) * width;
    }
    assert (height - 1) * width + width == height * width;
  }

  /** Two in-bounds positions share a slot only if they are the same position. */
  lemma IndexInjective(p: Pos, q: Pos, width: int, height: int)
    requires InBounds(p, width, height) && InBounds(q, width, height)
    requires Index(p, width) == Index(q, width)
    ensures p == q
  {
    if p.y < q.y {
      RowsApart(p, q, width);
    } else if q.y < p.y {
      RowsApart(q, p, width);
    }
  }

  /** A position in a higher row has a slot at least one full row further on. */
  lemma RowsApart(p: Pos, q: Pos, width: int)
    requires 0 <= p.x < width && 0 <= q.x < width && p.y < q.y
    ensures Index(p, width) < Index(q, width)
  {
    var d := q.y - p.y - 1;
    assert 0 <= d * width;
    assert q.y * width == p.y * width + d * width + width;
  }

  /** Reading slot `k` of a JavaScript array: a slot past the end is a hole. */
  function ReadSlot(a: seq<Value>, k: int): Value
  {
    if 0 <= k < |a| then a[k] else Undefined
  }

  /** Assigning slot `k` of a JavaScript array: an array shorter than `k`
      grows, and the slots in between are holes. */
  function WriteSlot(a: seq<Value>, k: nat, n: int): (r: seq<Value>)
    ensures ReadSlot(r, k) == Num(n)
    ensures forall j :: j != k ==> ReadSlot(r, j) == ReadSlot(a, j)
    ensures |r| == if k < |a| then |a| else k + 1
  {
    if k < |a| then a[k := Num(n)] else a + seq(k - |a|, _ => Undefined) + [Num(n)]
  }

  /** `getTileData(pos, layer)`: 0 out of bounds, otherwise whatever the
      layer's array holds at the position's slot. */
  function Get(b: Buffer, p: Pos, layer: int): Outcome<Value>
  {
    if !InBounds(p, b.width, b.height) then Ok(Num(0))
    else if layer !in b.tileData then TypeError
    else Ok(ReadSlot(b.tileData[layer], Index(p, b.width)))
  }

  /** `setTileData(pos, layer, n)`: nothing happens out of bounds, otherwise
      the layer's array is assigned at the position's slot. */
  function Set(b: Buffer, p: Pos, layer: int, n: int): Outcome<Buffer>
  {
    if !InBounds(p, b.width, b.height) then Ok(b)
    else if layer !in b.tileData then TypeError
    else
      IndexInRange(p, b.width, b.height);
      Ok(b.(tileData := b.tileData[layer := WriteSlot(b.tileData[layer], Index(p, b.width), n)]))
  }

  /** A write to an in-bounds position of an existing layer succeeds, and
      reading the position back gives the written code. */
  lemma ReadAfterWrite(b: Buffer, p: Pos, layer: int, n: int)
    requires InBounds(p, b.width, b.height) && layer in b.tileData
    ensures Set(b, p, layer, n).Ok?
    ensures Get(Set(b, p, layer, n).value, p, layer) == Ok(Num(n))
  {
    IndexInRange(p, b.width, b.height);
  }

  /** Out-of-bounds accesses never fail: a read gives 0 and a write leaves
      the whole buffer unchanged, whether or not the layer exists. */
  lemma OutOfBoundsIsInert(b: Buffer, p: Pos, layer: int, n: int)
    requires !InBounds(p, b.width, b.height)
    ensures Get(b, p, layer) == Ok(Num(0))
    ensures Set(b, p, layer, n) == Ok(b)
  {
  }

  /** A write to an in-bounds position of a layer that does not exist throws
      and so changes nothing. */
  lemma WriteToMissingLayerThrows(b: Buffer, p: Pos, layer: int, n: int)
    requires InBounds(p, b.width, b.height) && layer !in b.tileData
    ensures Set(b, p, layer, n).TypeError? && Get(b, p, layer).TypeError?
  {
  }

  /** An in-bounds write changes slot `y*width + x` of its own layer and
      nothing else: the grid size, the set of layers, every other layer's
      array and every other slot of the written layer stay as they were, so
      every other (position, layer) pair reads as before. */
  lemma WriteIsLocal(b: Buffer, p: Pos, layer: int, n: int, q: Pos, other: int)
    requires InBounds(p, b.width, b.height) && layer in b.tileData
    requires q != p || other != layer
    ensures Set(b, p, layer, n).Ok?
    ensures var b' := Set(b, p, layer, n).value;
      && b'.width == b.width && b'.height == b.height
      && b'.tileData.Keys == b.tileData.Keys
      && (forall l :: l in b.tileData && l != layer ==> b'.tileData[l] == b.tileData[l])
      && (forall j :: j != Index(p, b.width) ==> ReadSlot(b'.tileData[layer], j) == ReadSlot(b.tileData[layer], j))
      && Get(b', q, other) == Get(b, q, other)
  {
    IndexInRange(p, b.width, b.height);
    if other == layer && InBounds(q, b.width, b.height) && Index(q, b.width) == Index(p, b.width) {
      IndexInjective(p, q, b.width, b.height);
    }
  }
}
