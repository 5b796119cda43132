# Tile grid and level loader of a tile-based platformer

This project models the tile-grid core of the game in `src/game.ts`. It has two parts.

The first part is the bounds-checked tile-data buffer. There is one flat, row-major array of tile codes per layer, at slot `y*width + x`. It is read by `getTileData` and written by `setTileData`. Both check the position against the size of the tile-collision grid. Out of bounds, a read gives 0 and a write does nothing.

The second part is the cell decoder of `loadLevel`, run on an already parsed level record. The record has a `width`, a `height` and `layers`, each with a `name` and a flat `data` array. The loader walks every layer named "foreground" in a double countdown: columns from the right, and within a column rows from the bottom of the stored map. It acts on each raw tile code as follows:
- the player marker (10) spawns the player one unit above the cell;
- a code below 1 paints an empty decorative tile;
- any other code is stored in the tile buffer and painted with decorative index `code - 1`;
- codes 1 to 4 (up to `TILETYPE.ladder`) also become collision data.

Storage rows run top-down and world rows bottom-up, so storage row `y` lands on world row `height-1-y`.

The engine calls are recorded rather than made:
- the collision writes, as a map from position to code;
- each layer's decorative tile writes, as a map from position to tile index;
- the player spawns, as a sequence of positions;
- the layer redraws, as a sequence of layer indices.

Modules:
- `TileBuffer` (`tile_buffer.dfy`) holds the buffer as a value, with `Get` and `Set` and their properties.
- `LevelLoader` (`level_loader.dfy`) holds the code classification, the visit order, and the per-cell, per-layer and per-level specification functions. It also holds lemmas about what a loaded level looks like.
- `GameState` (`game_state.dfy`) holds `class Game`, whose fields are the module-level state. Its `SetTileData` and its countdown loops in `LoadLevel` update the fields in place. They are proved against the functions of the other two modules.

Where the code and the design description of the repository disagree, the model follows the code:
- **Visit order.** The design says cells are visited in row-major order. The code counts x down from `width-1` and then y down from `height-1`. The order shows only in the order of the spawns (`VisitOrder`).
- **Collision codes.** The design speaks of a "reduced" physics code in the collision grid. The code writes the raw tile code, including code 1, which is no `TILETYPE` member.
- **Spawn markers.** The design says codes 10 and up are spawn markers. Only 10, the player, is handled. Codes 11 to 15 (`TILEMAP_LOOKUP` demon, blob, tri, spike, fireball) are stored and painted like any decorative code.
- **Cells never written.** An in-bounds position whose cell was never written (a player marker, or a code below 1) reads as `undefined`, not 0. `tileData[i] = []` starts each foreground layer empty and only codes of 1 and up are stored.

## Model

| member | source | states |
|---|---|---|
| TileBuffer.Empty | src/game.ts:57 | before any level is loaded, every read of every layer gives 0 (the grid has size zero, so every position is out of bounds) |
| TileBuffer.IndexInRange | src/game.ts:61 | an in-bounds position's slot `y*width + x` lies in `[0, width*height)` |
| TileBuffer.IndexInjective | src/game.ts:61 | two in-bounds positions with the same slot are the same position |
| TileBuffer.WriteSlot | src/game.ts:61 | assigning a JavaScript array slot: the slot then holds the value, every other slot reads as before, and an array too short grows to just past the slot |
| TileBuffer.ReadAfterWrite | src/game.ts:60-64 | an in-bounds write to an existing layer succeeds, and reading the position back gives the written code |
| TileBuffer.OutOfBoundsIsInert | src/game.ts:60-64 | out of bounds, a read gives 0 and a write leaves the whole buffer unchanged, whether or not the layer exists |
| TileBuffer.WriteToMissingLayerThrows | src/game.ts:60-64 | an in-bounds access to a layer array that was never created throws a TypeError |
| TileBuffer.WriteIsLocal | src/game.ts:60-61 | an in-bounds write changes only slot `y*width + x` of its own layer: grid size, set of layers, all other layers and all other slots are unchanged, and every other (position, layer) reads as before |
| LevelLoader.EnemyMarkersArePlainTiles | src/game.ts:73-80 | the enemy spawn codes 11 to 15 are painted with index `code - 1`, with no collision and no spawn |
| LevelLoader.FlipIsBijective | src/game.ts:100 | storage row `y` maps to world row `height-1-y` and back, and a cell is in the grid exactly when its world position is in bounds |
| LevelLoader.CellEffect | src/game.ts:100-122 | one cell, by its code. The player marker appends a spawn at `(x, height-1-y+1)` and changes nothing else. A code below 1 sets decorative index 0 and writes no tile data, collision or spawn. Any other code becomes the tile data at the position, with every other position and layer unchanged, gets index `code - 1`, and sets the collision to the code exactly when the code is at most 4 |
| LevelLoader.DecodeCells | src/game.ts:98-123 | decoding a run of cells keeps the grid size and the layer being decoded in place |
| LevelLoader.ColumnOrderCells | src/game.ts:99 | the inner countdown visits each row of the column exactly once |
| LevelLoader.VisitOrderCells | src/game.ts:98-99 | the double countdown visits `width*height` cells, each cell of the grid exactly once, and no cell outside it |
| LevelLoader.DecorAt | src/game.ts:103-122 | after a run of distinct cells, a position holds the decorative index of its cell's code when that cell was visited and is no player marker, and otherwise what it held before |
| LevelLoader.CollisionAt | src/game.ts:115-117 | after a run of distinct cells, a position's collision entry is its cell's code when that cell was visited and its code is in 1..4, and otherwise what it was before |
| LevelLoader.TileAt | src/game.ts:110-114 | after a run of distinct cells, an in-bounds position's tile slot holds its cell's code when that cell was visited and its code is 1 or more and not the player marker, and otherwise what it held before |
| LevelLoader.DecodeCellsFrame | src/game.ts:98-123 | a run of cells of layer i appends its player spawns in order and leaves the set of layers, every other layer and the redraws unchanged |
| LevelLoader.SpawnCount | src/game.ts:103-106 | a run of distinct cells spawns the player once per player marker among them |
| LevelLoader.Cleared | src/game.ts:95-96 | a foreground layer starts from a new decorative layer and an empty tile array |
| LevelLoader.LoadLayer | src/game.ts:92-133 | one pass of the layers loop, whatever the layer's name, keeps the grid size |
| LevelLoader.LoadLayers | src/game.ts:91 | the loop over the layers never changes the grid size that `initTileCollision` set |
| LevelLoader.Load | src/game.ts:85-86 | after loading, the level's width and height are the grid size that bounds every tile access |
| LevelLoader.LayerDecor | src/game.ts:95-122 | a loaded foreground layer's decorative layer holds exactly the grid positions other than player markers, each with the decorative index of the code at its flipped row |
| LevelLoader.LayerTiles | src/game.ts:96-114 | after a foreground layer is loaded, `getTileData` gives 0 out of bounds, the code where the code is 1 or more and not the player marker, and a hole everywhere else |
| LevelLoader.LayerCollision | src/game.ts:115-117 | a foreground layer writes the raw code at every position with a code in 1..4, over what earlier layers wrote, and leaves every other collision entry alone |
| LevelLoader.LayerRecords | src/game.ts:98-126 | a foreground layer appends its spawns in visit order and one redraw of itself, and changes no other layer |
| LevelLoader.LayerSpawnCount | src/game.ts:103-106 | a foreground layer spawns the player exactly once per player marker in its data |
| LevelLoader.LevelSpawnCount | src/game.ts:91-106 | the spawns of the whole level number the player markers of its foreground layers |
| LevelLoader.LayerStep | src/game.ts:92-133 | one pass of the layers loop appends spawns, a redraw and collision writes for a foreground layer and nothing for any other layer |
| LevelLoader.LoadLayersRecords | src/game.ts:91-135 | the layers loop records the spawns, redraws and collision writes of the foreground layers, in layer order |
| LevelLoader.LoadLayersFrame | src/game.ts:129-133 | the layers loop leaves alone every layer already passed and every layer that is not a foreground layer |
| LevelLoader.LayerFrameStep | src/game.ts:92-133 | one pass of the layers loop changes no layer other than its own, and not its own unless it is a foreground layer |
| LevelLoader.LoadLayersForeground | src/game.ts:93-126 | a foreground layer not yet passed ends up exactly as its own data describes |
| LevelLoader.LoadedForeground | src/game.ts:84-126 | after `loadLevel`, every foreground layer's decorative layer and tile array are exactly those of its own data |
| LevelLoader.LoadedOtherLayers | src/game.ts:92-133 | after `loadLevel`, layers named "background", "enemy" or anything else, and indices that are no layer at all, are as they were before |
| LevelLoader.LoadedRecords | src/game.ts:84-136 | after `loadLevel`, the collision grid was cleared and holds the physics codes of the foreground layers. The player is spawned once per marker, after any earlier spawns. Each foreground layer is redrawn once, in layer order |
| LevelLoader.SingleForeground | src/game.ts:89-127 | a level made of one foreground layer records exactly that layer's spawns, physics codes and one redraw |
| LevelLoader.TwoCellMaps | src/game.ts:98-122 | for the 2 x 1 grid `[10, 3]`, the physics, decorative and tile contents |
| LevelLoader.TwoCellSpawns | src/game.ts:98-106 | for the 2 x 1 grid `[10, 3]`, the marker is visited second and spawns at (0, 1) |
| LevelLoader.TwoCellLevelRecords | src/game.ts:84-136 | loading `{width: 2, height: 1, layers: [{name: "foreground", data: [10, 3]}]}` spawns one player at (0, 1), makes (1, 0) a solid collision tile, and redraws layer 0 once |
| LevelLoader.TwoCellLevelGrid | src/game.ts:84-136 | in the same level, (1, 0) holds code 3 with decorative index 2, and the marker's cell holds no tile data and no decorative entry |
| GameState.Game.constructor | src/game.ts:57-58 | the start-up state: no layer arrays, no collision data, no engine calls |
| GameState.Game.GetTileData | src/game.ts:63-64 | reading the fields gives what `Get` gives on the modelled buffer |
| GameState.Game.SetTileData | src/game.ts:60-61 | the in-place write leaves the fields exactly as `Set` describes, reports whether the code was stored, and throws, changing nothing, on a missing layer |
| GameState.Game.LoadLevel | src/game.ts:84-135 | the layers loop leaves the fields equal to `Load` of the state before |
| GameState.Game.LoadForeground | src/game.ts:93-127 | the foreground case leaves the fields equal to `LoadLayer` of the state before |
| GameState.Game.DecodeColumn | src/game.ts:99-123 | the inner countdown over one column has the effect of decoding `ColumnOrder` |
| GameState.Game.DecodeCellAt | src/game.ts:100-122 | the loop body for one cell leaves the fields equal to `DecodeCell` of the state before |

## Left out

- Fetching and parsing the level (`getTileMapData`, `fetch`, the promise and its `.then`, src/game.ts:32-37 and 83) is I/O. The model takes an already parsed level record.
- The engine calls are recorded, not performed:
  - `initTileCollision` sets the grid size and clears the collision map;
  - `setTileCollisionData` writes into the collision map;
  - `new TileLayer`, `TileLayerData` and `tileLay[i].setData` become a per-layer map from position to tile index, without the colour and flags arguments;
  - `redraw` is an entry in a sequence.
- `createPlayerByEntity` and the entity store live in modules that are not part of this model. Only the spawn position is recorded. The size and tile arguments are left out.
- The system pipeline, `getPlayerHealth`, the particle emitter, input, sound, camera, gravity, the HUD and `engineInit` (src/game.ts:140-236) are not part of this model. Their logic lives in modules that are not part of this model, or is floating-point rendering glue.
- The `|0` truncations in `setTileData`/`getTileData` are taken as the identity. Positions are integers and grids have fewer than 2^31 cells. Fractional positions are not modelled.
- `LevelRecord` requires natural `width` and `height`. With a negative size the countdown `for (x = width; x--;)` would not stop.
- `WellFormed` requires every foreground layer to have exactly `width*height` integer codes. A shorter array would give `undefined` codes, which JavaScript compares as NaN. That path is not modelled.
- A level without `layers` (`if (tm.layers)`) behaves like a level with an empty `layers` list.
- GameState.Game.SetTileData: returns whether the code was stored, rather than the JavaScript expression value (`false`, or the stored code).
