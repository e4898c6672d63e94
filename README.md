# Biosim core in Dafny

Biosim runs Conway's Game of Life (rule B3/S23) on a square grid and draws it, either as squares or as a
hexagonal tiling. This project models the simulation core of the repository and proves properties of it:

- **Cells** (`cells.dfy`, module `Cells`). The two-valued cell with its `repr(u32)` discriminants. `Default` and
  `Zeroable::zeroed` both give Dead. Random sampling maps a draw of 0 to Dead and anything else to Alive. The glyphs
  are `#` and `-`.
- **The rule** (`life_rule.dfy`, `LifeRule`). The B3/S23 transition that every engine applies, with the full
  9-by-2 table.
- **The desktop engine** (`tauri_world.dfy`, `TauriWorld`). A 32 by 32 world held as rows and read as
  `cells[x][y]`. It has a bounded cell read, a neighbour count, `tick`, `new_random` and the `Debug` text.
- **The flat engine** (`app_world.dfy`, `AppWorld`). A 512 by 512 world held in one vector, with cell (x, y) at
  index `y * 512 + x`. The same operations are proved against a closed-form next generation `Generation`.
- **Grid geometry** (`core_grid.dfy`, `CoreGrid`). `get_index`, its inverse, and the saturating `add_clamped`.
- **`DOption`** (`d_option.dfy`, `DOptions`). The flag-plus-payload option of the `no_std` crate.
- **Coordinate mapping** (`hex_coords.dfy`, `HexCoords`). This is `uv_to_hexel_coord`, with its floored column and
  row, the corner correction and the hexel formula. It also holds `uv_to_rect_grid_coord` and `world_space_to_uv`.
  Floats are modelled as `real` and casts to `u32` as saturating floors. A `u32` step that leaves the range of
  `u32` gives `None`.
- **Shaders** (`shader.dfy`, `Shader`). The compute kernel `main` and `update_cell`, which make one guarded write
  per invocation. The fragment shader chooses between a colour, a texture sample and transparency.
- **GPU host state** (`compute_shader.dfy`, `ComputeShader`). A class with two cell arrays and a descriptor set.
  Its methods are `swap_buffers`, `copy_to_buffer`, the dispatch over the whole grid, and `read_back_to_image`,
  which copies a clamped window of the output into RGBA bytes.
- **Hexagon mesh** (`hex_mesh.dfy`, `HexMesh`). The index list of `get_indices` (four triangles per hexagon), the
  vertex list of `get_positions`, and the mesh with one colour per vertex.

The neighbour lookup does not wrap. Off-grid neighbours read as Dead, as both engines' `get_cell` write it. The
model follows this code, even though the world is sometimes described as toroidal.

## Model

| member | source | states |
|---|---|---|
| Cells.Discriminant | biosim-core/src/world.rs:5-10 | Dead is encoded as 0 and Alive as 1 |
| Cells.FromDiscriminant | biosim-core/src/world.rs:5-10 | a `u32` word decodes to a cell exactly when it is 0 or 1 |
| Cells.DecodeEncode | biosim-core/src/world.rs:5-10 | decoding a cell's discriminant gives back the cell |
| Cells.EncodeDecode | biosim-core/src/world.rs:5-10 | a word that decodes is the discriminant of what it decodes to |
| Cells.DiscriminantInjective | biosim-core/src/world.rs:5-10 | distinct cells have distinct discriminants |
| Cells.Zeroed | biosim-core/src/world.rs:12-16 | `zeroed()` is the cell whose encoding is 0 (Dead) |
| Cells.DefaultCell | biosim-core/src/world.rs:22-26 | `Default` is the zeroed cell, Dead |
| Cells.Sample | biosim-core/src/world.rs:28-35 | a draw gives Dead exactly when it is 0 |
| Cells.ToText | src-tauri/src/world.rs:37-44 | a cell prints as one character, `#` exactly for Alive and `-` exactly for Dead |
| LifeRule.NextState | src-tauri/src/world.rs:75-91 | the next state is Alive iff the count is 3, or the cell is Alive and the count is 2 |
| LifeRule.NextStateMatchesTable | app/src/world.rs:27-40 | the rule agrees with the written-out B3/S23 table for every state and every count 0..8 |
| LifeRule.Survival | app/src/world.rs:29-34 | an Alive cell survives iff it has 2 or 3 living neighbours |
| LifeRule.Birth | app/src/world.rs:35-40 | a Dead cell is born iff it has exactly 3 living neighbours |
| TauriWorld.GetCell | src-tauri/src/world.rs:105-111 | Dead whenever x or y is negative or at least 32; otherwise `cells[x][y]` |
| TauriWorld.LivingNeighbors | src-tauri/src/world.rs:93-103 | the count of living neighbours is at most 8 |
| TauriWorld.CountLivingNeighbors | src-tauri/src/world.rs:93-103 | the double loop counts the Alive cells among the 8 offsets around (x, y), centre excluded; the result is in [0, 8] |
| TauriWorld.GetNewState | src-tauri/src/world.rs:75-91 | the new state is the B3/S23 rule applied to the cell and its neighbour count |
| TauriWorld.Tick | src-tauri/src/world.rs:62-73 | the new world has 32 rows, and its cell (x, y) is the next state of (x, y) in the unchanged old world |
| TauriWorld.NewRandom | src-tauri/src/world.rs:51-60 | 32 rows of 32 cells; cell (x, y) is the sample of the generator's (32x + y)-th draw |
| TauriWorld.NewState | src-tauri/src/world.rs:75-91 | cell (x, y) is Alive next iff it has 3 living neighbours, or it is Alive and has 2 |
| TauriWorld.RowText | src-tauri/src/world.rs:116-119 | a row's text has one character per cell, each the cell's `to_string` |
| TauriWorld.Render | src-tauri/src/world.rs:114-124 | the `Debug` text of n rows is n lines of 32 characters with a newline between lines, n * 33 - 1 characters in all |
| TauriWorld.RenderLayout | src-tauri/src/world.rs:114-124 | the `Debug` text has lines of 32 characters joined by newlines; character j of line i is the glyph of `cells[i][j]` |
| AppWorld.GetCell | app/src/world.rs:57-63 | Dead for any coordinate outside [0, 512) on either axis; otherwise `cells[y * 512 + x]` |
| AppWorld.LivingNeighbors | app/src/world.rs:45-55 | the count of living neighbours is at most 8 |
| AppWorld.CountLivingNeighbors | app/src/world.rs:45-55 | the double loop counts the Alive cells among the 8 offsets, centre excluded; the result is in [0, 8] |
| AppWorld.GetNewState | app/src/world.rs:27-43 | the new state is the B3/S23 rule applied to the cell at `y * 512 + x` and its neighbour count |
| AppWorld.NewState | app/src/world.rs:27-43 | cell (x, y) is Alive next iff it has 3 living neighbours, or `cells[y * 512 + x]` is Alive and has 2 |
| AppWorld.Generation | app/src/world.rs:16-25 | the next generation has 512 * 512 cells |
| AppWorld.Tick | app/src/world.rs:16-25 | returns 512 * 512 cells; index `y * 512 + x` holds the next state of (x, y); the result is the closed-form next generation |
| AppWorld.GenerationIndex | app/src/world.rs:19-23 | the next generation holds the next state of (x, y) at index `y * 512 + x` |
| AppWorld.GenerationAt | app/src/world.rs:19-23 | any vector with the next state of every (x, y) at its index is the next generation, so each index is written exactly once |
| AppWorld.NewStateIsLocal | app/src/world.rs:27-63 | a cell's next state depends only on the 3 by 3 block around it |
| AppWorld.EmptyGridStaysEmpty | app/src/world.rs:16-25 | a grid with no living cell stays without one |
| AppWorld.NewRandom | app/src/world.rs:6-14 | returns 512 * 512 cells; the k-th is the sample of the k-th draw |
| CoreGrid.GetIndex | shader/src/lib.rs:53 | `get_index` (taken as `y * W + x`) puts every on-grid coordinate below W * W |
| CoreGrid.CoordOfIndex | app/src/world.rs:21 | reading back the coordinate of `y * W + x` gives (x, y) |
| CoreGrid.IndexOfCoord | app/src/compute_shader.rs:75 | every index is `y * W + x` of its coordinate, and it is below W * W iff that coordinate is on the grid |
| CoreGrid.IndexInjective | app/src/world.rs:21 | on the grid, two coordinates have the same index iff they are equal |
| CoreGrid.AddClamped | app/src/compute_shader.rs:67-69 | the offset point is on the grid, and it is exact whenever the sum is already on the grid |
| DOptions.Some | biosim-core/src/util.rs:7-9 | `some(x)` has flag true and payload x |
| DOptions.None | biosim-core/src/util.rs:11-13 | `none()` has flag false and the default value as payload |
| DOptions.UnwrapOrDefault | biosim-core/src/util.rs:15-20 | the payload when the flag is set, otherwise the fallback |
| DOptions.ToOption | biosim-core/src/util.rs:1 | a flag-and-payload value stands for a present value exactly when its flag is set |
| DOptions.UnwrapMatchesOption | biosim-core/src/util.rs:15-20 | `unwrap_or_default` agrees with the ordinary option the value stands for |
| DOptions.UnwrapConstructors | biosim-core/src/util.rs:7-20 | `some(x).unwrap_or_default(d) == x` and `none().unwrap_or_default(d) == d` |
| DOptions.AbsentPayloadIgnored | biosim-core/src/util.rs:18 | two absent values with different payloads unwrap alike |
| HexCoords.FloorToU32 | biosim-core/src/hex_grid.rs:10 | the cast keeps the floor whenever that floor fits in `u32`, gives 0 for a negative floor and `u32::MAX` for one past it |
| HexCoords.SquareOf | biosim-core/src/hex_grid.rs:6-16 | the floored column of `u * 3 * W`, the floored row of `0.5 v W` minus the half-row offset of odd columns, and the point's position in that square |
| HexCoords.UvToHexelCoord | biosim-core/src/hex_grid.rs:5-36 | the step-by-step updates of column and row give the corrected column and row, then `(column/2 - row, 2 row + column % 2)`, or None when a `u32` step would leave `u32` |
| HexCoords.HexelOf | biosim-core/src/hex_grid.rs:32-33 | `hexel_y` has the parity of the corrected column |
| HexCoords.HexelRoundTrip | biosim-core/src/hex_grid.rs:32-33 | the corrected column and row can be recovered from the hexel |
| HexCoords.ColumnRowRoundTrip | biosim-core/src/hex_grid.rs:32-33 | every hexel whose column and row fit in `u32` is produced by the formula |
| HexCoords.HexelInjective | biosim-core/src/hex_grid.rs:32-33 | distinct columns and rows give distinct hexels |
| HexCoords.ResolvedColumnRow | biosim-core/src/hex_grid.rs:10-30 | the column and row the function settles on: the correction moves the column by 0 or 1 and the row by -1, 0 or 1, and does nothing at or below 0.66667 |
| HexCoords.CorrectionConditions | biosim-core/src/hex_grid.rs:17-29 | the column advances iff the point is past 0.66667 and `parameter_upper > 0` or `parameter_lower < 0`; the row rises only from an odd column with `parameter_upper > 0` and falls only from an even one with `parameter_lower < 0` |
| HexCoords.ResolvedHexagonContainsPoint | biosim-core/src/hex_grid.rs:6-30 | the point lies inside the hexagon of the corrected column and row, except in the sliver just past 2/3 below the 0.66667 threshold |
| HexCoords.GoldenOrigin | biosim-core/src/hex_grid.rs:5-36 | (0, 0) maps to hexel (0, 0) |
| HexCoords.GoldenColumnOne | biosim-core/src/hex_grid.rs:5-36 | the centre of the column-1 hexagon maps to hexel (0, 1) |
| HexCoords.GoldenColumnTwo | biosim-core/src/hex_grid.rs:5-36 | the centre of the column-2 hexagon maps to hexel (1, 0) |
| HexCoords.GoldenColumnThree | biosim-core/src/hex_grid.rs:5-36 | the centre of a column-3 hexagon maps to hexel (0, 3) |
| HexCoords.GoldenUpperCorner | biosim-core/src/hex_grid.rs:17-25 | a point above the upper-right edge of hexagon (0, 0) moves into column 1 and maps to hexel (0, 1) |
| HexCoords.UvToRectGridCoord | biosim-core/src/hex_grid.rs:38-42 | x and y lie in [0, W-1] for every input; they equal `floor(u W)`, `floor(v W)` for u, v in [0, 1), are 0 when the scaled coordinate is negative and W-1 when it is at least W-1 |
| HexCoords.WorldSpaceToUv | biosim-core/src/hex_grid.rs:44-47 | (0, 0) maps to (0.5, 0.5), x = -W M / 2 to u = 0 and y = -W / 2 to v = 0 |
| HexCoords.WorldSpaceRoundTrip | biosim-core/src/hex_grid.rs:44-47 | the map is an affine bijection: composed with its inverse either way it is the identity |
| Shader.SetCellAt | shader/src/lib.rs:66-68 | the output changes at `get_index(coord)` only, to the given cell |
| Shader.UpdateCell | shader/src/lib.rs:59-64 | the output gets the cursor's new state for `coord`, computed from the unchanged input, at that index only |
| Shader.ComputeMain | shader/src/lib.rs:46-57 | an invocation writes its cell's new state only when the index is below the input length, and otherwise changes nothing |
| Shader.CellColour | shader/src/lib.rs:39-42 | Alive is drawn (0,0,0,1) and Dead (1,1,1,1), both opaque |
| Shader.HexelColourAsWritten | shader/src/lib.rs:35-43 | transparent iff `hexel_x > W` or `hexel_y > W`; otherwise the cell's colour, or an out-of-bounds read past the buffer |
| Shader.AsWrittenTopEdgeOutOfBounds | shader/src/lib.rs:35-39 | hexel (0, W) passes the strict test and reads one past the end of a full buffer |
| Shader.AsWrittenRightEdgeAliases | shader/src/lib.rs:35-39 | hexel (W, 0) passes the strict test and shows the colour of cell (0, 1) |
| Shader.AsWrittenReachableRightEdge | shader/src/lib.rs:32-39 | the in-range point (2/3, 1/1000) maps to hexel (W, 0), which is not drawn transparent |
| Shader.HexelColour | shader/src/lib.rs:35-43 | transparent iff the hexel is off the grid; never out of bounds for a full buffer; otherwise the hexel's own cell colour |
| Shader.CorrectedAgreesOffTheEdge | shader/src/lib.rs:35 | the corrected and the written test agree on every hexel with no coordinate equal to W |
| Shader.HexGrid | shader/src/lib.rs:30-44 | the hex path maps (u, 1 - v) to a hexel and colours it with the strict test as written, so a hexel with a coordinate equal to W is read from the buffer; an overflowing `u32` step gives `ArithmeticOverflow` |
| Shader.HexGridCorrected | shader/src/lib.rs:30-44 | the same path with the intended `>=` test: transparent exactly when the hexel is off the grid |
| Shader.RectGrid | shader/src/lib.rs:24-28 | the rect path samples the texture at the centre of the texel under (u, 1 - v) |
| Shader.Fragment | shader/src/lib.rs:17-21 | the `rect_grid` layout takes the rect path, and the hexagonal layout takes the hex path as written |
| ComputeShader.DispatchCoversGrid | app/src/compute_shader.rs:32 | the (W/32) workgroups of 32 threads per axis have global ids exactly 0 .. W-1 |
| ComputeShader.GlobalIdInjective | app/src/compute_shader.rs:32 | no two threads of the extent share a global id |
| ComputeShader.Swapped | app/src/compute_shader.rs:48 | swapping exchanges the input and output roles |
| ComputeShader.SwapInvolution | app/src/compute_shader.rs:47-48 | swapping twice restores the original roles |
| ComputeShader.PixelBytes | app/src/compute_shader.rs:77 | Alive is [0,0,0,255] and Dead is [255,255,255,255] |
| ComputeShader.PixelIndexBijective | app/src/compute_shader.rs:83 | every byte of the W by W by 4 image belongs to exactly one pixel and channel |
| ComputeShader.ReadBackWindow | app/src/compute_shader.rs:67-69 | both corners of the window are on the grid, low <= high, and each side is at most 512 |
| ComputeShader.CentredWindow | app/src/compute_shader.rs:67-69 | centred at (256, 256) the window runs from (0, 0) to (511, 511) |
| ComputeShader.LastRowAndColumnNeverRead | app/src/compute_shader.rs:67-76 | under the assumed clamp of `add_clamped` into [0, W), the exclusive upper corner is at most W-1, so row and column W-1 are never copied |
| ComputeShader.BiosimComputeShader.constructor | app/src/compute_shader.rs:193-213 | both buffers have `buffer_length` Dead cells; binding 0 is the input and binding 1 the output |
| ComputeShader.BiosimComputeShader.SwapBuffers | app/src/compute_shader.rs:47-54 | the buffers exchange roles; binding 0 then refers to the new input and binding 1 to the new output; no cell changes |
| ComputeShader.BiosimComputeShader.CopyToBuffer | app/src/compute_shader.rs:56-61 | `input[i] = src[i]` for i < min(len src, len input); the rest of the input and the whole output are unchanged |
| ComputeShader.BiosimComputeShader.Dispatch | app/src/compute_shader.rs:22-45 | every output index below W * W and the input length gets the cursor's new state for its coordinate; every other output cell is unchanged |
| ComputeShader.BiosimComputeShader.ReadBackToImage | app/src/compute_shader.rs:63-91 | pixels in rows [low.y, high.y) and columns [low.x, high.x) get the colour of `output[y W + x]`; all other bytes are unchanged |
| ComputeShader.WritePixel | app/src/compute_shader.rs:87 | the four bytes of one pixel are set, and every other pixel is unchanged |
| ComputeShader.DispatchComputesGeneration | app/src/compute_shader.rs:22-45 | with a Life cursor and grid-sized buffers, the output of a dispatch is the flat engine's next generation of the input |
| HexMesh.ExpectedPositions | src-tauri/src/hex_grid.rs:26-42 | the vertex list has W * W * 6 entries |
| HexMesh.ExpectedIndices | src-tauri/src/hex_grid.rs:51-67 | the index list has W * W * 12 entries |
| HexMesh.PositionAt | src-tauri/src/hex_grid.rs:30-39 | vertex `corner` of (x, y) sits at position `(x W + y) * 6 + corner` |
| HexMesh.IndexAt | src-tauri/src/hex_grid.rs:54-62 | entry `(x W + y) * 12 + k` is `(x + y W) * 6` plus the k-th corner of (0,1,5), (1,2,5), (2,4,5), (2,3,4) |
| HexMesh.GetPositions | src-tauri/src/hex_grid.rs:26-42 | the loops push six vertices per (x, y), x outermost, W * W * 6 in all |
| HexMesh.GetIndices | src-tauri/src/hex_grid.rs:51-67 | the loops emit the four triangles of each (x, y) at its offset, W * W * 12 indices in all |
| HexMesh.IndicesInRange | src-tauri/src/hex_grid.rs:56-62 | the 12 indices of (x, y) lie in [offset, offset + 5] and below W * W * 6 |
| HexMesh.AllIndicesInRange | src-tauri/src/hex_grid.rs:54-62 | every emitted index is below the vertex count |
| HexMesh.OffsetsDisjoint | src-tauri/src/hex_grid.rs:56 | distinct (x, y) get disjoint blocks of six vertices |
| HexMesh.IndicesTransposed | src-tauri/src/hex_grid.rs:30-62 | the triangles emitted at (x, y) use the corners of the hexagon pushed at (y, x) |
| HexMesh.EveryCornerDrawn | src-tauri/src/hex_grid.rs:26-67 | every corner of every hexagon is used by some triangle |
| HexMesh.BuildHexGridMesh | src-tauri/src/hex_grid.rs:8-24 | every index names a vertex, and there is one white colour per vertex, W * W * 6 in all |

## Left out

- Floating point. `f32` arithmetic in biosim-core/src/hex_grid.rs is modelled over `real`, so rounding is not captured.
- The trigonometry of `get_hex_vertex_pos`. A vertex is kept as the hexagon and corner it stands for.
- Texture sampling in `rect_grid`. The model stops at the sample coordinates.
- Turning the camera position into a centre, at app/src/compute_shader.rs:64-65. `ReadBackToImage` takes the centre coordinate as given.
- Vulkan instance, device, pipeline and descriptor-set creation, and command recording and submission. These are foreign API calls.
- ComputeShader.BiosimComputeShader.Dispatch: runs the W by W invocations one after another. On the GPU they run in parallel. This is safe here because each invocation writes only its own index and reads only the input buffer.
- `WorldCursor::get_new_state` is not part of this model. The kernel takes it as a parameter `cursor`. `DispatchComputesGeneration` assumes it agrees with the flat engine's rule.
- `get_index` and `WorldOffset::add_clamped` are not part of this model. They are taken as `y * W + x` and as a saturating clamp into [0, W).
- HexCoords.UvToHexelCoord: gives None where a `u32` step would overflow or underflow. A debug build panics there, and the GPU wraps around. Wrap-around is not modelled.
- Shader.HexGrid: turns that None into an `ArithmeticOverflow` outcome. It does not produce the colour the GPU's wrapped arithmetic would give.
- Descriptor bindings. The kernel declares its buffers at bindings 2 and 3 of set 0, but the host writes bindings 0 and 1. The model follows the host's bindings.
- `unsafe impl Pod for Cell` lets any `u32` word be read as a cell. Only 0 and 1 are valid cells, and `FromDiscriminant` gives None for the others.
- The `Cell::Blah` arm at app/src/world.rs:41 names a variant that does not exist, so it is omitted.
- Random generation. `new_random` takes the generator's successive draws as a function `draw`.
- ComputeShader.BiosimComputeShader.ReadBackToImage: writes the image's RGBA bytes in place. The source consumes the image and returns a rebuilt one. The shape conversions that `unwrap` become preconditions on the lengths.
- DOptions.None: takes the type's default value as a parameter, since the model has no `Default` trait.
- HexMesh.BuildHexGridMesh: keeps only the lengths and the index range of the mesh attributes.
- The Bevy plugins, timers, materials, UI and build files. app/src/biosim_plugin.rs calls a compute-shader API that no longer exists.

## Findings

| source | as written | input that shows it | evidently intended | confidence | as-written member | corrected member |
|---|---|---|---|---|---|---|
| shader/src/lib.rs:35 | `hexel_x > WORLD_WIDTH \|\| hexel_y > WORLD_WIDTH` lets a coordinate equal to the width through to `cells[get_index(coord)]` | u = 2/3, v = 1/1000 maps to hexel (512, 0), which is drawn with cell (0, 1)'s colour; hexel (0, 512) indexes one past the end of the 512 * 512 buffer | `>=`, so every hexel off the grid is transparent | not executed | Shader.HexelColourAsWritten | Shader.HexelColour |

`Shader.HexGrid` and `Shader.Fragment` keep the test as written. `Shader.HexGridCorrected` is the hex path with the corrected test, and `Shader.CorrectedAgreesOffTheEdge` shows the two differ only on hexels with a coordinate equal to W.
