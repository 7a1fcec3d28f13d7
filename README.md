# Rogue dungeon generator — a Dafny model

This project models the core of `Rogue.ts`, a generator of Rogue-style dungeon maps, and
proves properties of the model.

A `Rogue` object is built from a width, a height, a number of rooms and a seed. It fills a
flat mesh of `width * height` character codes (cell `(x, y)` is at index `x + y * width`)
in these steps:

- **Partition.** Starting from one section covering the whole map, `divide` repeatedly
  takes the largest section and cuts it across its longer side at a position drawn from
  an xorshift generator. The two children overlap by one line, inherit the parent's
  face bits and gain one face each. Every cut section is recorded in a registry.
- **Rooms.** In each leaf section `createRoomInFitTo` draws a room at least `MIN` = 5
  cells wide and high, strictly inside the section's margin. It puts a door on every
  face whose bit the section carries.
- **Rendering.** The constructor then:
  - carves each room (walls, floor, doors);
  - marks the section's perimeter and the walk from each door to it with the temporary
    code `T` (`putTempCove`);
  - pushes one corridor ("cove") per door and paints them;
  - for every ordered pair of distinct sibling sections, scans the first one's left
    column and top row for corridor cells and pushes a corridor joining the first
    corridor cell found to each later one (`makeCove`);
  - paints every corridor again and turns the remaining `T` cells back into blanks
    (`deleteTempCove`).

The modules follow the source's classes:

| module | file | models |
|---|---|---|
| `Xorshift` | xorshift.dfy | class `Random`: the 32-bit xorshift state, `next`, `nextInt` |
| `Sections` | sections.dfy | class `Section`, the face bit flags, the two kinds of cut, the stable sort by area |
| `Rooms` | rooms.dfy | classes `Room` and `RoomBuilder` |
| `Coves` | coves.dfy | class `Cove` and its cell list |
| `Mesh` | mesh.dfy | tile codes, cell indexing, and each mesh pass as a function on the mesh's contents |
| `Pipeline` | pipeline.dfy | the constructor's phases composed into one function, `Render`, of rooms and registry |
| `Dungeon` | dungeon.dfy | class `Rogue`: the fields, the imperative passes over the `mesh` array, `createRooms`, `divide` |

Each imperative pass of `Dungeon.Rogue` is proved to leave `mesh[..]` (or `coves`) equal
to a function in `Mesh` or `Pipeline` of the old contents. Those functions carry the
lemmas about what the passes do. The constructor ends with `(mesh[..], coves) ==
Render(...)`, and `Render` is proved to produce only displayable tiles, to contain
every door corridor, and to leave a cell as corridor exactly when some pushed corridor
covers it.

Two things are modelled from the source's own behaviour, not from a cleaner reading:

- A section is identified by its registry index, so its parent is an index (-1 for the
  root). The source compares parents with `===`, which is object identity, and the
  registry index stands for that identity.
- The registry keeps the cut sections in the order they were cut, followed by the final
  leaves in the order they were left after the last sort. Room `k` lies in leaf `k`.

## Model

| member | source | states |
|---|---|---|
| `Xorshift.StepNeverZero` | Rogue.ts:18-21 | one draw of `next()` never takes a non-zero state to the all-zero state |
| `Xorshift.Steps` | Rogue.ts:18-21 | from a non-zero state, the state after any number of draws is non-zero, so the generator never sticks at zero |
| `Xorshift.Signed` | Rogue.ts:21 | reading a 32-bit word as a JavaScript signed integer gives a value in [-2^31, 2^31) that is non-negative exactly when the word is below 2^31 |
| `Xorshift.Output` | Rogue.ts:21 | `next()` returns a value in [0, 2^31] |
| `Xorshift.OutputIsAbs` | Rogue.ts:21 | `next()` returns the absolute value of the signed new w, and returns 2^31 exactly when w is 0x80000000 |
| `Xorshift.NextIntOf` | Rogue.ts:23-25 | `nextInt(min, max)` lies in [min, max] when min <= max; when max + 1 < min it lies in [min, 2*min - max - 1) |
| `Xorshift.SeededNonzero` | Rogue.ts:6-17 | the seeded state is never all zero, whatever the seed (x, y and z are fixed non-zero constants) |
| `Xorshift.Random.constructor` | Rogue.ts:12-17 | the generator starts in the seeded state |
| `Xorshift.Random.Next` | Rogue.ts:18-22 | advances the state by one step and returns the output of the new state, within [0, 2^31] |
| `Xorshift.Random.NextInt` | Rogue.ts:23-25 | advances by one step and returns `min + next % (max + 1 - min)`, within [min, max] when min <= max |
| `Sections.FaceIndex` | Rogue.ts:160-162 | the slot of a face flag is the i < 4 with 1 << i == face |
| `Sections.FaceIndexInjective` | Rogue.ts:160-162 | distinct faces use distinct door slots |
| `Sections.VSplit` | Rogue.ts:369-375 | the vertical cut at d: the left child is d wide from the parent's left; the right child starts on the left child's last column and ends at the parent's right; same rows; faces gain RIGHT and LEFT; both children name the cut section as parent and lie inside it when 1 <= d <= width |
| `Sections.HSplit` | Rogue.ts:376-382 | the horizontal cut, the same with rows, faces BOTTOM and TOP |
| `Sections.SplitKeepsFaces` | Rogue.ts:369-382 | a child keeps every face bit of its parent and gains the face toward its sibling |
| `Sections.SplitCovers` | Rogue.ts:351-359 | `divide` cuts across the longer side: for an offset within that side the children keep the shorter side, lie inside the parent, overlap by one line, and every cell of the parent lies in one of them |
| `Sections.SortByArea` | Rogue.ts:350 | the sort keeps the number of sections |
| `Sections.InsertByAreaPerm` | Rogue.ts:350 | one insertion adds exactly the inserted section to the multiset |
| `Sections.InsertByAreaSorted` | Rogue.ts:350 | inserting into a list sorted by non-increasing area keeps it sorted |
| `Sections.SortByAreaSorted` | Rogue.ts:350 | the sort returns a permutation of its input, ordered by non-increasing area |
| `Sections.InsertKeepsOrder` | Rogue.ts:350 | an insertion puts the section in front of the sections of its own area and keeps the order of every area class |
| `Sections.SortByAreaStable` | Rogue.ts:350 | the sort is stable: for every area, the sections of that area come out in their input order |
| `Sections.FirstLargest` | Rogue.ts:350 | the position of the first section of maximum area |
| `Sections.SortHeadIsFirstLargest` | Rogue.ts:350 | after the stable sort, the head is the first section of largest area in the input |
| `Rooms.DoorSlotsApart` | Rogue.ts:47-52 | `hasDoor` and `getDoorPos` of a face read that face's own slot: writing a slot gives its face a door exactly when the position is not NO_DOOR, at that position, and changes nothing another face reads |
| `Rooms.NoFacesNoDoors` | Rogue.ts:332-345 | a room drawn in a section without face bits has no door |
| `Rooms.RoomBuilder.constructor` | Rogue.ts:71-78 | the builder holds the given geometry and section, and four empty door slots |
| `Rooms.RoomBuilder.AddDoor` | Rogue.ts:80-83 | sets the slot of the given face to the position and leaves the other three slots alone |
| `Rooms.RoomBuilder.Build` | Rogue.ts:85-87 | the room has the builder's geometry and section, and every face of the room has a door exactly when the builder's slot for it is set, at that slot's position |
| `Coves.Cove.Cells` | Rogue.ts:115-124 | every listed cell is covered by the corridor, and there are right - left (horizontal) or bottom - top (vertical) of them |
| `Coves.Cove.GetCoord` | Rogue.ts:115-124 | the loop collects exactly the corridor's cell list |
| `Coves.NewCove` | Rogue.ts:100-114 | the constructor normalises the span: it starts at the smaller end and is abs(len) long on the given row or column |
| `Coves.CellsCover` | Rogue.ts:115-124 | a cell is listed exactly when the corridor covers it |
| `Coves.NewCoveCells` | Rogue.ts:100-124 | a new corridor lists abs(len) consecutive cells starting at min(from, from + len) |
| `Mesh.CellIndex` | Rogue.ts:245 | index x + y * width of a cell with 0 <= x < width decodes back to column x and row y |
| `Mesh.InBounds` | Rogue.ts:186 | a cell of the grid has an index inside the width * height mesh |
| `Mesh.ClearTemp` | Rogue.ts:221-224 | no `T` is left; the only cells that change are `T` cells, which become blank |
| `Mesh.ClearTempIdempotent` | Rogue.ts:221-224 | deleting the temporary marks twice is the same as once |
| `Mesh.ClearTempTiles` | Rogue.ts:218-224 | after the last pass every cell holds a displayable tile |
| `Mesh.RoomTiles` | Rogue.ts:250-267 | in a placed room a cell shows floor exactly when it is inside the walls, a door exactly on a door cell, and a vertical or horizontal wall on every other cell of the perimeter |
| `Mesh.Carve` | Rogue.ts:249-268 | carving keeps the mesh's size and its codes, and every corridor cell afterwards was one before (carving adds no corridor cell) |
| `Mesh.CarveShape` | Rogue.ts:249-268 | outside the room nothing changes; the interior is floor; the corners are vertical wall; the rest of the side columns is vertical wall and the rest of the top and bottom rows horizontal wall, except at the doors; a door cell is inside the room, is not a corner, and shows a door |
| `Mesh.Frame` | Rogue.ts:270-274 | marking the perimeter keeps the mesh's size and its codes |
| `Mesh.FrameBorder` | Rogue.ts:270-274 | after the first loop every perimeter cell of the section holds `T` |
| `Mesh.ScanTo` | Rogue.ts:277 | a door walk stops at the first `T` in its direction, before its bound, and meets no `T` on the way |
| `Mesh.Probe` | Rogue.ts:275-294 | a walk only writes `T`, only on its line, only from its start onward, and keeps every `T` already there |
| `Mesh.ProbeMarksWalk` | Rogue.ts:275-294 | every cell from the start of the walk to where it stops holds `T` afterwards |
| `Mesh.ProbeKeepsBorder` | Rogue.ts:275-294 | a walk keeps the section's perimeter marked |
| `Mesh.DoorWalkFromDoor` | Rogue.ts:275-294 | the walk of a door starts on the cell just outside the door, moves one cell at a time away from the room, and heads for a perimeter cell of the section on the door's row or column |
| `Mesh.DoorProbe` | Rogue.ts:275-294 | the walk from one door writes only `T`, never inside the room, and keeps the walks of the other doors possible |
| `Mesh.DoorProbeMarks` | Rogue.ts:275-294 | after the walk from a door, every cell from its start to where it stopped holds `T` |
| `Mesh.TempCoves` | Rogue.ts:269-295 | `putTempCove` only adds `T` marks and keeps the mesh's codes |
| `Mesh.TempCovesShape` | Rogue.ts:269-295 | afterwards the section's perimeter is marked, the room's own cells are unchanged, and the whole walk from each door is marked |
| `Mesh.DoorMarkKept` | Rogue.ts:275-294 | a door's marked walk stays marked under any later pass that keeps every `T` |
| `Mesh.Paint` | Rogue.ts:243-247 | painting a corridor keeps the mesh's size and its codes |
| `Mesh.PaintCells` | Rogue.ts:243-247 | every cell of the corridor is corridor afterwards, and only its cells change |
| `Mesh.DoorCoveSpan` | Rogue.ts:200-206 | the corridor pushed for a door covers the start and the end of the door's walk, ends on the section's perimeter, and lies in the section outside the room |
| `Mesh.DoorCovesFit` | Rogue.ts:198-207 | every door corridor of a placed room lies in the grid |
| `Mesh.Corridors` | Rogue.ts:229-238 | the corridor cells of the scanned range, strictly increasing, listed exactly when the cell holds corridor |
| `Mesh.JoinsFrom` | Rogue.ts:229-238 | once a first corridor cell is known, the scan pushes one corridor from it to each later corridor cell |
| `Mesh.JoinsFromFirst` | Rogue.ts:229-238 | a whole scan pushes a corridor from the first corridor cell to each later one, and nothing when there are none |
| `Mesh.JoinsFit` | Rogue.ts:229-238 | every corridor a scan pushes lies in the grid |
| `Pipeline.CarveRooms` | Rogue.ts:194-197 | the first loop keeps the mesh's size and its codes, and every corridor cell afterwards was one before (it adds no corridor cell) |
| `Pipeline.LastRoomIntact` | Rogue.ts:194-197 | after the first loop, the cells of the last room show its walls, floor and doors |
| `Pipeline.AllDoorCovesFit` | Rogue.ts:198-207 | every door corridor the second loop pushes lies in the grid |
| `Pipeline.AllDoorCovesCount` | Rogue.ts:198-207 | the second loop pushes exactly one corridor per door |
| `Pipeline.PaintAll` | Rogue.ts:209-210 | painting all corridors keeps the mesh's size and its codes |
| `Pipeline.PaintAllCovered` | Rogue.ts:209-210 | after painting, a cell is corridor if some corridor covers it, and otherwise holds what it held |
| `Pipeline.PaintAllTwice` | Rogue.ts:209-216 | painting the door corridors and then all corridors equals painting all corridors once |
| `Pipeline.RowJoinsFit` | Rogue.ts:212-213 | every corridor pushed for one section1 lies in the grid |
| `Pipeline.AllJoinsFit` | Rogue.ts:211-213 | every corridor the nested `makeCove` loop pushes lies in the grid |
| `Pipeline.Blank` | Rogue.ts:186 | the new mesh has width * height cells, and every one of them is blank |
| `Pipeline.Render` | Rogue.ts:185-219 | the finished mesh has the map's size and only displayable tiles, and the corridor list starts with every door corridor |
| `Pipeline.RenderCorridors` | Rogue.ts:185-219 | a finished cell is corridor if and only if a pushed corridor covers it; every other cell shows the carved rooms with the `T` marks blanked |
| `Dungeon.Rogue.constructor` | Rogue.ts:185-219 | generation completes exactly when `Generated` holds for the seeded state (a falsy seed is replaced by the clock); on completion: room_num rooms; 2 * room_num - 1 registered sections (1 when room_num is 0) forming a containment tree rooted at the map; room k placed in the k-th leaf; mesh and corridors equal to `Render` |
| `Dungeon.Rogue.Build` | Rogue.ts:192-218 | the same, from the generator's state when it starts |
| `Dungeon.Rogue.DeleteTempCove` | Rogue.ts:221-224 | the mesh becomes `ClearTemp` of the old mesh |
| `Dungeon.Rogue.PutRoom` | Rogue.ts:249-268 | the mesh becomes `Carve` of the old mesh |
| `Dungeon.Rogue.PutDoor` | Rogue.ts:260-267 | only the door cell of that face changes, and it shows a door |
| `Dungeon.Rogue.MarkBorder` | Rogue.ts:270-274 | the mesh becomes `Frame` of the old mesh |
| `Dungeon.Rogue.RunProbe` | Rogue.ts:275-294 | one walk loop leaves the mesh equal to `Probe` of the old mesh |
| `Dungeon.Rogue.ProbeDoor` | Rogue.ts:275-294 | the walk of one door leaves the mesh equal to `DoorProbe` |
| `Dungeon.Rogue.PutTempCove` | Rogue.ts:269-295 | the mesh becomes `TempCoves` of the old mesh |
| `Dungeon.Rogue.PutCove` | Rogue.ts:243-247 | the mesh becomes `Paint` of the old mesh |
| `Dungeon.Rogue.MakeCove` | Rogue.ts:226-240 | pushes `PairJoins`: nothing unless the two sections are distinct siblings, otherwise the joins of the first one's left column and then its top row |
| `Dungeon.Rogue.ScanJoins` | Rogue.ts:229-238 | one scan loop pushes `Joins` of the scanned line |
| `Dungeon.Rogue.VDivide` | Rogue.ts:369-375 | draws one number and returns `VSplit` at the drawn offset |
| `Dungeon.Rogue.HDivide` | Rogue.ts:376-382 | draws one number and returns `HSplit` at the drawn offset |
| `Dungeon.Rogue.Divide` | Rogue.ts:349-367 | registers the largest leaf and replaces it by its two children, after the other leaves in sorted order |
| `Dungeon.Cut` | Rogue.ts:349-367 | one round of the splitting loop always leaves a leaf; a completed round registers one section and adds one leaf |
| `Dungeon.Rogue.CutLargest` | Rogue.ts:349-367 | one round of the splitting loop leaves registry, leaves and generator as `Cut` says, and keeps the tree growing |
| `Dungeon.SplitsCount` | Rogue.ts:300-302 | after n completed rounds the registry has grown by n sections and the leaf list by n leaves |
| `Dungeon.Rogue.SplitMap` | Rogue.ts:298-303 | the splitting loop ends as `Splits` says; when it completes, room_num - 1 cuts leave room_num leaves (1 when room_num is 0) hanging off a registry one shorter |
| `Dungeon.DrawsInRange` | Rogue.ts:313-316 | every pair the retry loop draws lies in the drawn interval |
| `Dungeon.DrawsFailNarrow` | Rogue.ts:313-316 | an interval shorter than MIN holds no pair MIN apart, so the retry loop fails, as it does with no attempt at all |
| `Dungeon.Rogue.DrawSpan` | Rogue.ts:312-319 | the loop succeeds exactly when the pair that `Draws` replays is at least MIN apart, and returns the smaller one and the difference; on success the span lies in [lo, hi] and is at least MIN long |
| `Dungeon.DoorDraw` | Rogue.ts:333-343 | a face the mask carries gets a position in the drawn range and one draw; any other face gets NO_DOOR and no draw |
| `Dungeon.Rogue.DrawDoor` | Rogue.ts:333-343 | the slot of the face becomes the `DoorDraw` result, the other slots are untouched, and the generator advances as `DoorDraw` says |
| `Dungeon.Rogue.DrawDoors` | Rogue.ts:332-346 | the four door draws, right, left, bottom, top, build the room that `DoorsDraw` describes |
| `Dungeon.DoorsDrawPlaced` | Rogue.ts:332-346 | a room whose rectangle lies inside the section's margin gets its doors exactly on the section's faces, strictly between the corners |
| `Dungeon.Rogue.CreateRoomInFitTo` | Rogue.ts:311-347 | placement, room and generator state are those `RoomDraw` replays from the state before the call |
| `Dungeon.RoomDrawPlaced` | Rogue.ts:311-347 | a room that `createRoomInFitTo` places is at least MIN wide and high, strictly inside its section's margin, with a door on each face the section carries and only there |
| `Dungeon.RoomDrawFailsNarrow` | Rogue.ts:311-347 | no room is placed in a section narrower or lower than MIN + 2, nor within zero attempts |
| `Dungeon.Rogue.PlaceRooms` | Rogue.ts:304-305 | the loop succeeds exactly when `Placement` does, and then holds one room per leaf, placed in that leaf |
| `Dungeon.PlacementFailsNarrow` | Rogue.ts:304-305 | the loop fails when one of its leaves is too small for a room |
| `Dungeon.NoRoomsGenerated` | Rogue.ts:297-307 | a dungeon of no rooms needs no cut and no room, so generation always completes |
| `Dungeon.Rogue.CreateRooms` | Rogue.ts:297-308 | succeeds exactly when `Generated` holds; on success: room_num rooms, a containment tree rooted at the map as registry, and room k in the k-th appended leaf |
| `Dungeon.Rogue.AddLeaves` | Rogue.ts:307 | the leaves are appended to the registry, which stays a containment tree |
| `Dungeon.Rogue.Generate` | Rogue.ts:194-218 | the rendering phases leave mesh and corridors equal to `Render` |
| `Dungeon.Rogue.PutRooms` | Rogue.ts:194-197 | the first loop leaves the mesh equal to `CarveRooms` |
| `Dungeon.Rogue.PushDoorCoves` | Rogue.ts:198-207 | appends every door corridor, room by room |
| `Dungeon.Rogue.PushRoomCoves` | Rogue.ts:199-206 | appends the corridors of one room's doors in the order left, right, top, bottom |
| `Dungeon.Rogue.PutCoves` | Rogue.ts:209-210 | the mesh becomes `PaintAll` of the old mesh over every corridor |
| `Dungeon.Rogue.MakeCoves` | Rogue.ts:211-213 | the nested loop appends `AllJoins` of the mesh as it was before the loop |
| `Dungeon.Rogue.MakeRow` | Rogue.ts:212-213 | the inner loop appends `RowJoins` for one section1 |
| `Dungeon.GrowingFits` | Rogue.ts:300-303 | every leaf of a growing tree lies in the grid |
| `Dungeon.SortedFromLeaves` | Rogue.ts:350 | every section of the sorted list comes from the leaf list |
| `Dungeon.ChildrenInside` | Rogue.ts:369-382 | children that lie in the grid lie inside the section they were cut from and name it as parent |
| `Dungeon.CutKeepsLeaves` | Rogue.ts:349-367 | one round of `divide` keeps a containment tree whose leaves all hang off registered sections |
| `Dungeon.LeavesJoinRegistry` | Rogue.ts:307 | appending the leaves to the registry yields a containment tree rooted at the map |
| `Dungeon.RoomsInLeaves` | Rogue.ts:304-307 | with the leaves appended, room k lies in the k-th of the last room_num sections of the registry |

## Left out

- `server.ts`, the HTTP wrapper that builds a `Rogue` per request and serialises it, is
  not part of this model.
- The clock: when the seed is falsy, the source seeds with `Date.now()`. The model takes
  the current time as the constructor parameter `now`, and represents every falsy seed
  (0, `undefined`, `null`, `NaN`) by 0.
- `Section.GetFaceBitFlagIndex` computes `floor(log(face) / log(2))` in floating point.
  `Sections.FaceIndex` is the exact index for the four face flags, the only arguments it
  is given. Other arguments are not modelled.
- `nextInt`'s default arguments are never used by the core and are not modelled.
- `Xorshift.NextIntOf`: requires `max + 1 - min != 0`. For that divisor the source
  computes `NaN`; every call site of the model proves it non-zero or fails first.
- `Dungeon.Rogue.constructor`: its promises about rooms, registry and mesh hold only when
  generation completes (`complete`). `complete` is exactly `Dungeon.Generated`, which is
  false in these cases:
  - a section whose cut range is empty (`Dungeon.CutDrawable`; the source computes `NaN`
    when the longer side is 15);
  - a cut that leaves a child of width or height 0 or less. Below 15 the source's range
    for the offset is reversed, and the drawn offset can exceed the side being cut; the
    model stops on every such offset. The source carries on with that child. In most
    cases its room draw there can only produce values fewer than MIN apart, and the
    source retries forever. A side S of 7 or 8 cut at an offset d of S + 6 or more
    (the reversed range reaches 22 − S), with the other side at least 7, is different:
    the child is −5 to −7 cells high (or wide), its room draw ranges over six to eight
    values and can succeed, and the source can complete with a room outside the
    child's section, from d cells past the leaf's top (or left) on. These are an 8×7,
    7×8 or 8×8 section cut at 14 and a 7×7 section cut at 13, 14 or 15. Such a room can
    lie off the map, and the source's array then grows or wraps into the next row
    where it writes the room. For example, an 8×7 map with two rooms is cut at an
    offset in [8, 14]. The model stops for offsets 9 to 14. The source hangs for
    offsets 9 to 13, and for 14 it goes on with the right child's room at columns 14
    to 18, off the map. A 7×7 map with two rooms can likewise complete in the source
    with a room in rows 13 to 17 and a mesh longer than width × height;
  - a leaf section one cell wide or high (the source's draws compute `NaN`);
  - a room draw that needs more than `attempts` rounds (the source retries forever,
    which it does for certain in a section narrower or lower than MIN + 2).
- `Dungeon.Rogue.Build`, `Dungeon.Rogue.CreateRooms`, `Dungeon.Rogue.SplitMap`,
  `Dungeon.Rogue.PlaceRooms`: same as the constructor. Their success flags are
  characterised exactly (`Generated`, `Splits`, `Placement`); the other promises hold
  only on success.
- `Dungeon.Rogue.CreateRoomInFitTo`: the two retry loops are bounded by `attempts`; on
  exhaustion the model reports failure where the source keeps drawing.
- `Dungeon.Rogue.DrawSpan`: the same bound; the range it promises holds on success.
- A negative `room_num` is excluded by the constructor's precondition. The source throws
  a `RangeError` from `new Array(room_num)`.
- A width or height of 0 or less is excluded by the constructor's `Positive` parameters.
  The source throws a `RangeError` from `new Array(width * height)` when exactly one of
  them is negative. With a zero side and `room_num` at least 1, the room draw of a leaf
  with that zero side draws `nextInt(left + 1, left - 1)`, which always returns
  `left + 1`, so the source retries forever unless an earlier cut computed `NaN`. With
  `room_num` 0 it returns an empty dungeon. These cases and both sides negative are not
  modelled.
- `divide` sorts the leaf array in place with a comparator and then splices out the
  section it cut. The model sorts the leaf sequence as a value, with a stable insertion
  sort, and drops its head, which is where the search always finds the cut section.
  The sort's in-place reordering of a shared array is not modelled.
- Not proved:
  - that the leaves of the registry cover the map (`RegistryTree` says only that every
    section lies inside its parent; `Sections.SplitCovers` says it of one cut);
  - that the dungeon is connected;
  - that rooms do not overlap each other's sections;
  - that a door cell is still a door after the later passes (only the last carved room
    is proved intact after carving, `Pipeline.LastRoomIntact`).
- Xorshift invertibility (every state has exactly one predecessor) is not stated: the
  proof needs reasoning about xors of shifted 32-bit words that the solver does not
  finish.
