# Pixel Art Studio and the tkinter raycaster, modelled in Dafny

This project models the logic of two scripts: the pixel-art editor and the first-person raycasting engine.

**`pixel_art.dfy`, module `PixelArt`.**

- The pixel store is a `map<Cell, string>` from grid cell to colour, without the canvas item ids. Painting white removes a cell's entry, so the store never holds white.
- The tool state is the current colour, the drawing mode (`Draw`, `Erase`, `Fill`), the grid flag and the drag flag.
- `PixelArtApp` is a class whose methods update these fields in place, as the Python methods do.
- The flood fill is the source's breadth-first `while queue` loop, with a `seq` as the deque. It is proved against a reference definition: a cell is recoloured exactly when a path of adjacent in-grid cells of the start cell's colour connects it to the start.
- The mode/colour state machine (`set_color` and `set_drawing_mode` call each other) is two mutually recursive methods. Together they keep the invariant "erasing implies the colour is white".

**`raycaster.dfy`, module `Raycaster`.**

- Covers the 16 x 16 `WORLD_MAP`, the configuration constants, `check_collision`, and the per-ray work of `cast_rays`: the stepped march, the fish-eye clamp, the projection, the fog shade, the `#0000xx` colour and the centred strip. It also covers `move_player`.
- World coordinates are `real`. Python's `x // 64` on a float is `Floor`, and `int()` is truncation toward zero.
- `math.cos` and `math.sin` are function parameters. `MovePlayer` requires that their values lie in [-1, 1].
- The collision lookup takes the grid as a parameter. The engine class holds `WorldMap` in a constant field, and the properties of the map are stated with `IsGrid` and `IsWalled`.

## Model

| member | source | states |
|---|---|---|
| PixelArt.PixelSizeDerived | Pixel-Art-Studio.py:7-9 | PIXEL_SIZE is CANVAS_SIZE // PIXEL_GRID_SIZE = 20 |
| PixelArt.GetGridCoords | Pixel-Art-Studio.py:194-197 | the result is the floor quotient by 20: 20·gx ≤ x < 20·gx + 20, and likewise for y |
| PixelArt.GridCoordsOnCanvas | Pixel-Art-Studio.py:194-197 | the cell under (x, y) is in [0,30)² if and only if (x, y) is in [0,600)² |
| PixelArt.GetPixelColor | Pixel-Art-Studio.py:199-204 | a stored cell gives its stored colour; any other cell gives "#FFFFFF" |
| PixelArt.Painted | Pixel-Art-Studio.py:206-236 | the store after `update_pixel_state`: painting white removes the cell's key, any other colour stores it under the cell; every other key and its colour is unchanged |
| PixelArt.PaintedReadBack | Pixel-Art-Studio.py:206-236 | after painting a cell, reading it gives the new colour; every other cell reads as before; a store without white stays without white |
| PixelArt.ColorsDetermineStore | Pixel-Art-Studio.py:206-236 | two stores that hold no white and show the same colour everywhere are equal, so the colour statements below fix the whole store |
| PixelArt.DragOffCanvasStoresOffGrid | Pixel-Art-Studio.py:249-259 | a point off the canvas maps to a cell outside the grid, and painting it stores that key |
| PixelArt.ClosedRegionHoldsPathEnd | Pixel-Art-Studio.py:278-295 | a set closed under stepping to adjacent in-grid cells of the target colour holds the end of every such path that starts in it |
| PixelArt.Neighbors | Pixel-Art-Studio.py:291-295 | the fill queues exactly four cells, and they are exactly the cells one step away along one axis (Adjacent is defined by coordinates, so the fill is 4-connected); the body lists them in the source's order: east, west, south, north |
| PixelArt.ReachableSymmetric | Pixel-Art-Studio.py:263-295 | connectivity is symmetric, and a connected cell has the start cell's colour |
| PixelArt.FillStarts | Pixel-Art-Studio.py:268-276 | when the target differs from the fill colour, the state with nothing painted and only the start queued satisfies the fill invariant |
| PixelArt.FillSkipKeeps | Pixel-Art-Studio.py:279-286 | discarding a dequeued cell that is off the grid or not of the target colour keeps the fill invariant |
| PixelArt.FillPaintKeeps | Pixel-Art-Studio.py:288-295 | painting a dequeued in-grid target cell and enqueueing its east, west, south and north neighbours keeps the invariant and removes one unpainted grid cell, so the loop terminates |
| PixelArt.FillComplete | Pixel-Art-Studio.py:278-295 | when the queue is empty, a cell shows the fill colour exactly when it is connected to the start; every other cell, including off-grid keys, keeps its colour |
| PixelArt.PixelArtApp.constructor | Pixel-Art-Studio.py:32-35 | the app starts with black, pencil mode, grid shown, an empty store and no drag |
| PixelArt.PixelArtApp.SetColor | Pixel-Art-Studio.py:164-168 | the colour becomes the argument; a non-white colour while erasing switches to pencil mode; erasing implies white afterwards |
| PixelArt.PixelArtApp.SetDrawingMode | Pixel-Art-Studio.py:175-183 | the mode becomes the argument; erase selects white; pencil replaces a white colour by black; fill keeps the colour |
| PixelArt.PixelArtApp.ClearCanvas | Pixel-Art-Studio.py:185-190 | the store is empty, the mode is pencil and the colour is black |
| PixelArt.PixelArtApp.ToggleGrid | Pixel-Art-Studio.py:299-310 | the grid flag flips and the store is unchanged |
| PixelArt.PixelArtApp.ReleaseButton | Pixel-Art-Studio.py:129-131 | releasing the button ends the drag |
| PixelArt.PixelArtApp.UpdatePixelState | Pixel-Art-Studio.py:206-236 | the store becomes the old store with the cell set to the colour, or with the cell removed when the colour is white |
| PixelArt.PixelArtApp.DrawPixel | Pixel-Art-Studio.py:249-259 | without a drag or in fill mode nothing changes; otherwise the cell under the point is painted with the current colour, which is white when erasing; there is no bounds check |
| PixelArt.PixelArtApp.HandleClick | Pixel-Art-Studio.py:238-247 | a click off the grid changes nothing; in fill mode it floods from the clicked cell; otherwise it starts a drag and paints the cell |
| PixelArt.PixelArtApp.FloodFill | Pixel-Art-Studio.py:263-295 | nothing changes when the start's colour is the current colour; otherwise every cell shows the fill colour if it is connected to the start and its old colour if not; the store stays free of white |
| Raycaster.DerivedConstants | First-Person-3D-Raycasting-Engine.py:12-13 | the world side 1024 is not a constant of the source but is derived as MAP_SIZE · CELL_SIZE, the extent `check_collision` admits (lines 116-117); the projection numerator CELL_SIZE · 350 of line 158 is 22400 |
| Raycaster.WorldMapIsWalled | First-Person-3D-Raycasting-Engine.py:24-41 | WORLD_MAP is 16 x 16, and its first and last rows and columns are all walls |
| Raycaster.GridIndex | First-Person-3D-Raycasting-Engine.py:114-115 | the floor-divided index g satisfies 64·g ≤ v < 64·(g+1) |
| Raycaster.CheckCollision | First-Person-3D-Raycasting-Engine.py:112-118 | a wall is reported only for points inside the 1024 x 1024 mapped world |
| Raycaster.CollisionIsCellLookup | First-Person-3D-Raycasting-Engine.py:112-118 | a point in cell (gx, gy) collides exactly when gx and gy are in [0,16) and the map holds 1 there; off-map cells never collide |
| Raycaster.BorderIsWall | First-Person-3D-Raycasting-Engine.py:24-41 | on a walled map, every in-world point in the outer ring of cells collides |
| Raycaster.FreePointIsInterior | First-Person-3D-Raycasting-Engine.py:112-118 | on a walled map, a free in-world point is at least one cell away from every edge of the world |
| Raycaster.MarchResultUnique | First-Person-3D-Raycasting-Engine.py:140-147 | at most one distance satisfies the march's exit condition, so the reported distance is determined by the ray |
| Raycaster.MarchRay | First-Person-3D-Raycasting-Engine.py:129-147 | the distance is even and in [2, 800]; no earlier sample hits a wall; the sample at the distance hits, or the distance is 800; hitWall holds exactly when the last sample hits; the loop runs at most 400 times |
| Raycaster.CorrectedDistance | First-Person-3D-Raycasting-Engine.py:151-156 | the corrected distance is at least 1 and at least dist·cos, and it is one of the two |
| Raycaster.CorrectionNeverLengthens | First-Person-3D-Raycasting-Engine.py:151-156 | for a cosine in [0, 1], the correction never exceeds the march distance |
| Raycaster.CorrectionOnAxis | First-Person-3D-Raycasting-Engine.py:151-156 | the ray straight ahead is not corrected |
| Raycaster.CorrectionMonotone | First-Person-3D-Raycasting-Engine.py:151-156 | for a non-negative cosine, a farther hit never gives a smaller corrected distance |
| Raycaster.ProjectedHeight | First-Person-3D-Raycasting-Engine.py:158 | the height is in (0, 22400] and height · corrected distance = 22400 |
| Raycaster.ProjectedHeightDecreasing | First-Person-3D-Raycasting-Engine.py:158 | a strictly larger corrected distance gives a strictly smaller height |
| Raycaster.Truncate | First-Person-3D-Raycasting-Engine.py:162 | `int()` truncates toward zero, for both signs |
| Raycaster.TruncateMonotone | First-Person-3D-Raycasting-Engine.py:162 | truncation is monotone |
| Raycaster.Shade | First-Person-3D-Raycasting-Engine.py:162-163 | the shade is at least 30, and at most 255 for a non-negative distance |
| Raycaster.ShadeIsFog | First-Person-3D-Raycasting-Engine.py:162-163 | the shade is max(30, truncated 255 − cd·255/800): whenever the truncated fog value is at least 30 it is the shade, and a shade above 30 is that value; from cd = 800·225/255 on, the shade is the floor |
| Raycaster.ShadeMonotone | First-Person-3D-Raycasting-Engine.py:162-163 | the shade never increases with the corrected distance |
| Raycaster.HexValueOfDigit | First-Person-3D-Raycasting-Engine.py:168 | each lower-case hex digit reads back as its value |
| Raycaster.Hex | First-Person-3D-Raycasting-Engine.py:168 | every character is a lower-case hex digit (0-9, a-f); there is at least one, and exactly one when n < 16 |
| Raycaster.HexRoundTrip | First-Person-3D-Raycasting-Engine.py:168 | reading back the hex digits of n gives n |
| Raycaster.Format02x | First-Person-3D-Raycasting-Engine.py:168 | `02x` formatting: exactly max(2, number of hex digits) characters, the hex digits of n at the end, padded on the left with '0' |
| Raycaster.Format02xRoundTrip | First-Person-3D-Raycasting-Engine.py:168 | for n < 256, `02x` gives exactly two characters, both lower-case hex digits, and they read back as n |
| Raycaster.WallColor | First-Person-3D-Raycasting-Engine.py:168 | the blue wall colour `#{0:02x}{0:02x}{shade:02x}` starts with "#0000" |
| Raycaster.WallColorEncodesShade | First-Person-3D-Raycasting-Engine.py:168 | the wall colour is seven characters: "#0000" followed by two lower-case hex digits that read back as the shade |
| Raycaster.Strip.Color | First-Person-3D-Raycasting-Engine.py:168-180 | the fill colour a strip is drawn with is its shade's wall colour, which starts with "#0000" |
| Raycaster.ProjectStrip | First-Person-3D-Raycasting-Engine.py:149-179 | the strip is drawn at x = 5·ray; top + bottom = 400, so it is centred; its height times the corrected distance is 22400; the height is in (0, 22400]; the shade is in [30, 255] |
| Raycaster.StripColorEncodesShade | First-Person-3D-Raycasting-Engine.py:162-168 | the strip's shade is the fog shade of its corrected distance, and its colour is "#0000" followed by two digits that encode it |
| Raycaster.StripMonotone | First-Person-3D-Raycasting-Engine.py:151-172 | on the same ray, a farther hit never gives a taller or a brighter strip |
| Raycaster.RayAngle | First-Person-3D-Raycasting-Engine.py:122-124 | ray i's angle differs from the facing angle by (i − 60) · DELTA_ANGLE: the first ray starts at angle − HALF_FOV and each ray adds DELTA_ANGLE (line 182) |
| Raycaster.RayAngleStep | First-Person-3D-Raycasting-Engine.py:182 | adding DELTA_ANGLE to ray i's angle gives ray i+1's angle |
| Raycaster.RayAnglesIncrease | First-Person-3D-Raycasting-Engine.py:122-124 | ray angles strictly increase with the ray index |
| Raycaster.RayAnglesInFieldOfView | First-Person-3D-Raycasting-Engine.py:16-19 | every one of the 120 rays lies in [angle − HALF_FOV, angle + HALF_FOV), and ray 60 looks straight ahead |
| Raycaster.CastRays | First-Person-3D-Raycasting-Engine.py:120-182 | the result has 120 strips in column order; strip i is the projection of ray i's march result, cast at RayAngle(angle, i) |
| Raycaster.TryMove | First-Person-3D-Raycasting-Engine.py:98-103 | the candidate position is taken in full when it does not collide; otherwise the position is unchanged |
| Raycaster.TryMoveKeepsWalkable | First-Person-3D-Raycasting-Engine.py:98-103 | on a walled map, a move of at most 3 units per axis from a free point ends at a free point on the map |
| Raycaster.MovedPosition | First-Person-3D-Raycasting-Engine.py:97-110 | the position after a frame's forward then backward step: unchanged when neither key is held, and otherwise either unchanged or a point that does not collide |
| Raycaster.MovedPositionWalkable | First-Person-3D-Raycasting-Engine.py:89-110 | a frame's forward step and then its backward step never leave the free part of a walled map |
| Raycaster.RaycasterEngine.constructor | First-Person-3D-Raycasting-Engine.py:52-61 | the player starts at (320, 200) facing angle 0, on a free cell, with no key held |
| Raycaster.RaycasterEngine.MovePlayer | First-Person-3D-Raycasting-Engine.py:89-110 | the angle changes by −0.05 or +0.05 per held turn key; the position is the gated forward step along the new facing, then the gated backward step from where that left the player; the player stays on a free point |
| Raycaster.RaycasterEngine.Turn | First-Person-3D-Raycasting-Engine.py:93-95 | each held turn key changes the angle by exactly 0.05 |
| Raycaster.RaycasterEngine.Translate | First-Person-3D-Raycasting-Engine.py:97-110 | the backward step starts from the position after the forward step, and each step is gated by the collision check |
| Raycaster.RaycasterEngine.GatedStep | First-Person-3D-Raycasting-Engine.py:98-103 | the player moves to the candidate position only when it does not collide |

## Left out

- All tkinter code is outside the model: windows, canvases, ttk styles, labels, canvas items and their ids, and the `root.after` frame loop. Also out are the outline colour that `update_pixel_state` and `toggle_grid` give cell rectangles, and the key bindings that set the raycaster's four movement flags. The model keeps only the data these calls receive.
- `choose_color` (a colour-chooser dialog), `save_project` and `load_project` (message boxes), and `create_palette` (widgets that call `set_color`) are not modelled.
- Interactive-Cyberpunk-Neural-Network.py and Interactive-Recursive-Fractal-Tree.py are not part of this model. They are floating-point animation and drawing with no state logic.
- Raycaster.MarchRay: positions are exact reals, so each sample is origin + eye · dist exactly. The source accumulates `curr_x += eye_x * 2` in floating point, and rounding can move a sample across a cell boundary. The ray angles in Raycaster.CastRays are likewise exact sums of DELTA_ANGLE.
- Raycaster.RaycasterEngine.Turn and Raycaster.RaycasterEngine.GatedStep: angles and positions are exact reals. In the source `player_angle ± 0.05` and `player_x + cos · 3.0` are rounded floats, so for example turning left and then right need not return exactly to the old angle. The collision gate tests the same value it stores, so nothing proved about walkability depends on rounding.
- Raycaster.CastRays and Raycaster.RaycasterEngine.MovePlayer: `math.cos` and `math.sin` are parameters. Nothing about their values is assumed except the range [-1, 1], which `MovePlayer` requires.
- Raycaster.Pi is the decimal 3.141592653589793, the value `math.pi` prints. Floating-point rounding of FOV, HALF_FOV and DELTA_ANGLE is not modelled.
- The grayscale `hex_color` at First-Person-3D-Raycasting-Engine.py:164 is overwritten at once by the blue colour, so only the blue colour is modelled.
- Raycaster.Strip stores the fog shade, and `Strip.Color` derives the `#0000xx` string from it. The source passes the string to the canvas. The two carry the same information (Raycaster.StripColorEncodesShade).
- PixelArt.PixelArtApp.constructor: the source never initialises `is_drawing`; it is first set by a click at Pixel-Art-Studio.py:246 or by a button release at line 130. The model starts it at false. In the source, a drag before either event raises AttributeError inside the event callback, for example a drag that follows a fill-mode click. The toolkit reports the error and the drag paints nothing, which is the model's outcome too.
- The application's `drawing_mode` is a string, but it is only ever set to "draw", "erase" or "fill", which become the `Mode` constructors.
