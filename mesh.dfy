/** Mesh: the flat tile array of the dungeon (cell (x, y) at index x + y * width), its
    tile codes, and the value-level description of every pass that writes it. The
    imperative passes of class Rogue are proved equal to these functions. */
module Mesh {
  import opened Sections
  import opened Rooms
  import opened Coves

  /** Tile codes: the character codes of ' ', '.', '#', '|', '-', '+' and 'T'. */
  const BLANK: int := 32
  const FLOOR: int := 46
  const COVE: int := 35
  const VWALL: int := 124
  const HWALL: int := 45
  const DOOR: int := 43
  /** Marks the corridor skeleton while the dungeon is being built; never left in a finished mesh. */
  const TMP: int := 84

  /** A code a finished dungeon may show. */
  predicate IsTile(c: int)
  {
    c == BLANK || c == FLOOR || c == COVE || c == VWALL || c == HWALL || c == DOOR
  }

  /** A code some pass writes (a tile, or the temporary mark). */
  predicate IsCode(c: int)
  {
    IsTile(c) || c == TMP
  }

  predicate AllCodes(m: seq<int>)
  {
    forall i :: 0 <= i < |m| ==> IsCode(m[i])
  }

  predicate AllTiles(m: seq<int>)
  {
    forall i :: 0 <= i < |m| ==> IsTile(m[i])
  }

  /** No cell shows corridor. */
  predicate NoCove(m: seq<int>)
  {
    forall i :: 0 <= i < |m| ==> m[i] != COVE
  }

  // ---------------------------------------------------------------------------
  // Cells and flat indices
  // ---------------------------------------------------------------------------

  type Positive = n: int | n > 0 witness 1

  /** `m` is a width-by-height mesh. */
  predicate Fits(m: seq<int>, w: Positive, h: int)
  {
    0 <= h && |m| == w * h
  }

  predicate InGrid(w: Positive, h: int, x: int, y: int)
  {
    0 <= x < w && 0 <= y < h
  }

  function Idx(w: int, x: int, y: int): int
  {
    x + y * w
  }

  /** The column and the row of index `i`. */
  function Col(w: Positive, i: int): int
  {
    i % w
  }

  function Row(w: Positive, i: int): int
  {
    i / w
  }

  lemma MulMono(a: int, b: int, w: int)
    requires a <= b && 0 <= w
    ensures a * w <= b * w
  {
    assert b * w - a * w == (b - a) * w;
  }

  /** Index `x + y * w` belongs to cell (x, y). */
  lemma CellIndex(w: Positive, x: int, y: int)
    requires 0 <= x < w && 0 <= y
    ensures Col(w, Idx(w, x, y)) == x && Row(w, Idx(w, x, y)) == y
  {
    var i := x + y * w;
    var q, r := i / w, i % w;
    assert i == q * w + r;
    if q < y {
      MulMono(q + 1, y, w);
      assert false;
    }
    if q > y {
      MulMono(y + 1, q, w);
      assert false;
    }
  }

  /** ... and to no other cell. */
  lemma IndexOfCell(w: Positive, i: int)
    ensures i == Idx(w, Col(w, i), Row(w, i))
  {
    assert i == (i / w) * w + i % w;
  }

  lemma IndicesOfCells(w: Positive)
    ensures forall i :: i == Idx(w, Col(w, i), Row(w, i))
  {
    forall i ensures i == Idx(w, Col(w, i), Row(w, i)) {
      IndexOfCell(w, i);
    }
  }

  /** Every cell of the grid has an index inside the mesh. */
  lemma InBounds(w: Positive, h: int, x: int, y: int)
    requires InGrid(w, h, x, y)
    ensures 0 <= Idx(w, x, y) < w * h
  {
    MulMono(0, y, w);
    MulMono(y + 1, h, w);
  }

  /** The tile at (x, y): `mesh[x + y * width]`. */
  function Cell(m: seq<int>, w: Positive, h: int, x: int, y: int): int
    requires Fits(m, w, h) && InGrid(w, h, x, y)
  {
    InBounds(w, h, x, y);
    m[Idx(w, x, y)]
  }

  // ---------------------------------------------------------------------------
  // deleteTempCove
  // ---------------------------------------------------------------------------

  predicate NoTemp(m: seq<int>)
  {
    forall i :: 0 <= i < |m| ==> m[i] != TMP
  }

  /** Every temporary mark becomes blank. */
  function ClearTemp(m: seq<int>): (r: seq<int>)
    ensures |r| == |m| && NoTemp(r)
    ensures forall i :: 0 <= i < |m| && r[i] != m[i] ==> m[i] == TMP && r[i] == BLANK
  {
    seq(|m|, i requires 0 <= i < |m| => if m[i] == TMP then BLANK else m[i])
  }

  /** Clearing twice is clearing once. */
  lemma ClearTempIdempotent(m: seq<int>)
    ensures ClearTemp(ClearTemp(m)) == ClearTemp(m)
  {
  }

  /** A mesh of codes becomes a mesh of tiles. */
  lemma ClearTempTiles(m: seq<int>)
    requires AllCodes(m)
    ensures AllTiles(ClearTemp(m))
  {
    var r := ClearTemp(m);
    forall i | 0 <= i < |r| ensures IsTile(r[i]) {
      assert IsCode(m[i]);
    }
  }

  // ---------------------------------------------------------------------------
  // putRoom
  // ---------------------------------------------------------------------------

  predicate InRoom(room: Room, x: int, y: int)
  {
    room.left <= x < room.Right() && room.top <= y < room.Bottom()
  }

  /** (x, y) is the wall cell that holds the door of `face`. */
  predicate DoorAt(room: Room, face: Face, x: int, y: int)
    requires IsFace(face)
  {
    room.HasDoor(face) &&
    if face == FACE_RIGHT then x == room.Right() - 1 && y == room.DoorPos(face)
    else if face == FACE_LEFT then x == room.left && y == room.DoorPos(face)
    else if face == FACE_TOP then x == room.DoorPos(face) && y == room.top
    else x == room.DoorPos(face) && y == room.Bottom() - 1
  }

  predicate IsDoorCell(room: Room, x: int, y: int)
  {
    DoorAt(room, FACE_RIGHT, x, y) || DoorAt(room, FACE_LEFT, x, y) ||
    DoorAt(room, FACE_TOP, x, y) || DoorAt(room, FACE_BOTTOM, x, y)
  }

  /** What the first loop of `putRoom` writes at (x, y): the two side columns (corners
      included) are vertical wall, the rest of the top and bottom rows horizontal wall, and
      the inside floor. */
  function WallCode(room: Room, x: int, y: int): int
  {
    if x == room.left || x == room.Right() - 1 then VWALL
    else if y == room.top || y == room.Bottom() - 1 then HWALL
    else FLOOR
  }

  /** The tile a room's rectangle shows at (x, y) once its doors are set. */
  function RoomCode(room: Room, x: int, y: int): int
  {
    if IsDoorCell(room, x, y) then DOOR else WallCode(room, x, y)
  }

  /** The tiles of a placed room: floor exactly inside, a door exactly on the door cells,
      and a vertical or horizontal wall on every other cell of the perimeter. */
  lemma RoomTiles(room: Room, x: int, y: int)
    requires Placed(room) && InRoom(room, x, y)
    ensures var c := RoomCode(room, x, y);
      (c == FLOOR <==> room.left < x < room.Right() - 1 && room.top < y < room.Bottom() - 1) &&
      (c == DOOR <==> IsDoorCell(room, x, y)) &&
      ((c == VWALL || c == HWALL) <==>
         !IsDoorCell(room, x, y) && (x == room.left || x == room.Right() - 1 || y == room.top || y == room.Bottom() - 1))
  {
  }

  /** The mesh after `putRoom(room)`. */
  function Carve(m: seq<int>, w: Positive, room: Room): (r: seq<int>)
    ensures |r| == |m| && (AllCodes(m) ==> AllCodes(r))
    ensures forall i :: 0 <= i < |r| && r[i] == COVE ==> m[i] == COVE
  {
    seq(|m|, i requires 0 <= i < |m| =>
      if InRoom(room, Col(w, i), Row(w, i)) then RoomCode(room, Col(w, i), Row(w, i)) else m[i])
  }

  /** A placed room's doors lie on its walls, never on a corner; so a carved room shows
      wall on its four sides except at its doors, floor inside, and the rest of the mesh
      is untouched. */
  lemma CarveShape(m: seq<int>, w: Positive, room: Room, i: int)
    requires Placed(room) && 0 <= i < |m|
    ensures var r := Carve(m, w, room); var x, y := Col(w, i), Row(w, i);
      (!InRoom(room, x, y) ==> r[i] == m[i]) &&
      (InRoom(room, x, y) && room.left < x < room.Right() - 1 && room.top < y < room.Bottom() - 1 ==> r[i] == FLOOR) &&
      (InRoom(room, x, y) && (x == room.left || x == room.Right() - 1) && (y == room.top || y == room.Bottom() - 1) ==> r[i] == VWALL) &&
      (InRoom(room, x, y) && (x == room.left || x == room.Right() - 1) && !IsDoorCell(room, x, y) ==> r[i] == VWALL) &&
      ((InRoom(room, x, y) && room.left < x < room.Right() - 1 && (y == room.top || y == room.Bottom() - 1) &&
        !IsDoorCell(room, x, y)) ==> r[i] == HWALL) &&
      (IsDoorCell(room, x, y) ==>
         InRoom(room, x, y) && r[i] == DOOR &&
         !((x == room.left || x == room.Right() - 1) && (y == room.top || y == room.Bottom() - 1)))
  {
  }

  // ---------------------------------------------------------------------------
  // putTempCove
  // ---------------------------------------------------------------------------

  /** (x, y) is on the one-cell perimeter of section `s`. */
  predicate OnBorder(s: Section, x: int, y: int)
  {
    s.left <= x < s.Right() && s.top <= y < s.Bottom() &&
    (x == s.left || x == s.Right() - 1 || y == s.top || y == s.Bottom() - 1)
  }

  /** The section lies inside the grid and is at least one cell wide and high. */
  predicate SectionFits(s: Section, w: Positive, h: int)
  {
    0 <= s.left && s.Right() <= w && 0 <= s.top && s.Bottom() <= h &&
    1 <= s.width && 1 <= s.height
  }

  /** The mesh after marking the perimeter of `s`. */
  function Frame(m: seq<int>, w: Positive, s: Section): (r: seq<int>)
    ensures |r| == |m| && (AllCodes(m) ==> AllCodes(r))
  {
    seq(|m|, i requires 0 <= i < |m| => if OnBorder(s, Col(w, i), Row(w, i)) then TMP else m[i])
  }

  lemma FrameBorder(m: seq<int>, w: Positive, h: int, s: Section)
    requires Fits(m, w, h)
    ensures Fits(Frame(m, w, s), w, h)
    ensures BorderMarked(Frame(m, w, s), w, h, s)
  {
    forall x, y | InGrid(w, h, x, y) && OnBorder(s, x, y)
      ensures Cell(Frame(m, w, s), w, h, x, y) == TMP
    {
      CellIndex(w, x, y);
      InBounds(w, h, x, y);
    }
  }

  /** A straight line of cells: column `k` when `vertical`, row `k` otherwise; a position
      `p` on it is the row (vertical) or the column (horizontal). */
  datatype Line = Line(vertical: bool, k: int)

  predicate OnGrid(w: Positive, h: int, line: Line, p: int)
  {
    if line.vertical then InGrid(w, h, line.k, p) else InGrid(w, h, p, line.k)
  }

  function LineIdx(w: Positive, line: Line, p: int): int
  {
    if line.vertical then Idx(w, line.k, p) else Idx(w, p, line.k)
  }

  function LineCell(m: seq<int>, w: Positive, h: int, line: Line, p: int): int
    requires Fits(m, w, h) && OnGrid(w, h, line, p)
  {
    if line.vertical then Cell(m, w, h, line.k, p) else Cell(m, w, h, p, line.k)
  }

  /** Index `i` lies on `line`, at position `Along(w, line, i)`. */
  predicate OnLine(w: Positive, line: Line, i: int)
  {
    if line.vertical then Col(w, i) == line.k else Row(w, i) == line.k
  }

  function Along(w: Positive, line: Line, i: int): int
  {
    if line.vertical then Row(w, i) else Col(w, i)
  }

  /** `b` is reached from `a` by steps of `step` (+1 or -1). */
  predicate Toward(a: int, b: int, step: int)
  {
    if step > 0 then a <= b else b <= a
  }

  /** `p` is passed when walking from `from` to `stop` (excluded) by steps of `step`. */
  predicate Between(from: int, stop: int, step: int, p: int)
  {
    if step > 0 then from <= p < stop else stop < p <= from
  }

  /** What a probe needs: a walk along `line` from `from` toward `bound`, both on the grid,
      where `bound` already holds a temporary mark. */
  predicate ProbeOk(m: seq<int>, w: Positive, h: int, line: Line, from: int, step: int, bound: int)
  {
    Fits(m, w, h) && (step == 1 || step == -1) && Toward(from, bound, step) &&
    OnGrid(w, h, line, from) && OnGrid(w, h, line, bound) && LineCell(m, w, h, line, bound) == TMP
  }

  /** The first position, walking from `p` toward `bound`, that holds a temporary mark. */
  function ScanTo(m: seq<int>, w: Positive, h: int, line: Line, p: int, step: int, bound: int): (stop: int)
    requires ProbeOk(m, w, h, line, p, step, bound)
    ensures Toward(p, stop, step) && Toward(stop, bound, step)
    ensures LineCell(m, w, h, line, stop) == TMP
    ensures forall q :: Between(p, stop, step, q) ==> LineCell(m, w, h, line, q) != TMP
    decreases if step > 0 then bound - p else p - bound
  {
    if LineCell(m, w, h, line, p) == TMP then p
    else ScanTo(m, w, h, line, p + step, step, bound)
  }

  /** The mesh after one probe of `putTempCove`: every cell walked over before the first
      temporary mark is marked too. */
  function Probe(m: seq<int>, w: Positive, h: int, line: Line, from: int, step: int, bound: int): (r: seq<int>)
    requires ProbeOk(m, w, h, line, from, step, bound)
    ensures Fits(r, w, h)
    ensures forall i :: 0 <= i < |m| && (m[i] == TMP || r[i] != m[i]) ==> r[i] == TMP
    ensures forall i :: 0 <= i < |m| && r[i] != m[i] ==> OnLine(w, line, i) && Toward(from, Along(w, line, i), step)
    ensures AllCodes(m) ==> AllCodes(r)
  {
    var stop := ScanTo(m, w, h, line, from, step, bound);
    seq(|m|, i requires 0 <= i < |m| =>
      if OnLine(w, line, i) && Between(from, stop, step, Along(w, line, i)) then TMP else m[i])
  }

  /** After a probe, the whole walk from `from` up to and including the first mark is marked. */
  lemma ProbeMarksWalk(m: seq<int>, w: Positive, h: int, line: Line, from: int, step: int, bound: int, q: int)
    requires ProbeOk(m, w, h, line, from, step, bound)
    requires Toward(from, q, step) && Toward(q, ScanTo(m, w, h, line, from, step, bound), step)
    ensures OnGrid(w, h, line, q)
    ensures LineCell(Probe(m, w, h, line, from, step, bound), w, h, line, q) == TMP
  {
    var stop := ScanTo(m, w, h, line, from, step, bound);
    var r := Probe(m, w, h, line, from, step, bound);
    var x, y := if line.vertical then line.k else q, if line.vertical then q else line.k;
    var i := Idx(w, x, y);
    InBounds(w, h, x, y);
    assert LineCell(r, w, h, line, q) == r[i];
    if q != stop {
      CellIndex(w, x, y);
      assert OnLine(w, line, i) && Along(w, line, i) == q;
      assert Between(from, stop, step, q);
    } else {
      assert LineCell(m, w, h, line, q) == m[i];
    }
  }

  /** Every cell on the perimeter of `s` holds a mark. */
  ghost predicate BorderMarked(m: seq<int>, w: Positive, h: int, s: Section)
    requires Fits(m, w, h)
  {
    forall x, y :: InGrid(w, h, x, y) && OnBorder(s, x, y) ==> Cell(m, w, h, x, y) == TMP
  }

  lemma ProbeKeepsBorder(m: seq<int>, w: Positive, h: int, line: Line, from: int, step: int, bound: int, s: Section)
    requires ProbeOk(m, w, h, line, from, step, bound) && BorderMarked(m, w, h, s)
    ensures BorderMarked(Probe(m, w, h, line, from, step, bound), w, h, s)
  {
    var r := Probe(m, w, h, line, from, step, bound);
    forall x, y | InGrid(w, h, x, y) && OnBorder(s, x, y) ensures Cell(r, w, h, x, y) == TMP {
      InBounds(w, h, x, y);
      assert Cell(m, w, h, x, y) == m[Idx(w, x, y)];
    }
  }

  /** The walk of the probe that starts next to the door of `face`: along the door's row
      (left, right) or column (top, bottom), away from the room, toward the section's
      perimeter. */
  datatype Walk = Walk(line: Line, from: int, step: int, bound: int)

  function DoorWalk(room: Room, face: Face): Walk
    requires IsFace(face)
  {
    var s := room.section;
    var p := room.DoorPos(face);
    if face == FACE_RIGHT then Walk(Line(false, p), room.Right(), 1, s.Right() - 1)
    else if face == FACE_LEFT then Walk(Line(false, p), room.left - 1, -1, s.left)
    else if face == FACE_BOTTOM then Walk(Line(true, p), room.Bottom(), 1, s.Bottom() - 1)
    else Walk(Line(true, p), room.top - 1, -1, s.top)
  }

  /** The walk of a door starts on the cell just outside the door, away from the room, and
      heads toward its bound, a perimeter cell of the section on the door's row or column. */
  lemma DoorWalkFromDoor(room: Room, face: Face)
    requires Placed(room) && IsFace(face) && room.HasDoor(face)
    ensures var wk := DoorWalk(room, face);
      var door := wk.from - wk.step;
      (wk.step == 1 || wk.step == -1) && Toward(wk.from, wk.bound, wk.step) &&
      (wk.line.vertical ==>
         DoorAt(room, face, wk.line.k, door) && !InRoom(room, wk.line.k, wk.from) &&
         OnBorder(room.section, wk.line.k, wk.bound)) &&
      (!wk.line.vertical ==>
         DoorAt(room, face, door, wk.line.k) && !InRoom(room, wk.from, wk.line.k) &&
         OnBorder(room.section, wk.bound, wk.line.k))
  {
  }

  /** What the probes of a room rely on: the room is placed in its section, the section
      lies in the grid, and the section's perimeter is marked. */
  ghost predicate ProbeReady(m: seq<int>, w: Positive, h: int, room: Room)
  {
    Fits(m, w, h) && Placed(room) && SectionFits(room.section, w, h) && BorderMarked(m, w, h, room.section)
  }

  /** One probe of `putTempCove`, run only when the room has a door on `face`. */
  function DoorProbe(m: seq<int>, w: Positive, h: int, room: Room, face: Face): (r: seq<int>)
    requires IsFace(face) && ProbeReady(m, w, h, room)
    ensures ProbeReady(r, w, h, room)
    ensures forall i :: 0 <= i < |m| && (m[i] == TMP || r[i] != m[i]) ==> r[i] == TMP
    ensures forall i :: 0 <= i < |m| && r[i] != m[i] ==> !InRoom(room, Col(w, i), Row(w, i))
    ensures AllCodes(m) ==> AllCodes(r)
    ensures room.HasDoor(face) ==>
      var wk := DoorWalk(room, face);
      OnGrid(w, h, wk.line, wk.from) && LineCell(r, w, h, wk.line, wk.from) == TMP
  {
    if !room.HasDoor(face) then m
    else
      var wk := DoorWalk(room, face);
      InBounds(w, h, if wk.line.vertical then wk.line.k else wk.bound, if wk.line.vertical then wk.bound else wk.line.k);
      ProbeKeepsBorder(m, w, h, wk.line, wk.from, wk.step, wk.bound, room.section);
      ProbeMarksWalk(m, w, h, wk.line, wk.from, wk.step, wk.bound, wk.from);
      Probe(m, w, h, wk.line, wk.from, wk.step, wk.bound)
  }

  /** The mesh after `putTempCove(room)`: the perimeter of the room's section is marked, then
      from each door (right, left, bottom, top, in that order) a probe runs outward from the
      cell next to the door to the first mark, which at the latest is on the perimeter. */
  function TempCoves(m: seq<int>, w: Positive, h: int, room: Room): (r: seq<int>)
    requires Fits(m, w, h) && Placed(room) && SectionFits(room.section, w, h)
    ensures ProbeReady(r, w, h, room)
    ensures forall i :: 0 <= i < |m| && (m[i] == TMP || r[i] != m[i]) ==> r[i] == TMP
    ensures AllCodes(m) ==> AllCodes(r)
  {
    FrameBorder(m, w, h, room.section);
    var m1 := Frame(m, w, room.section);
    var m2 := DoorProbe(m1, w, h, room, FACE_RIGHT);
    var m3 := DoorProbe(m2, w, h, room, FACE_LEFT);
    var m4 := DoorProbe(m3, w, h, room, FACE_BOTTOM);
    DoorProbe(m4, w, h, room, FACE_TOP)
  }

  /** Cell `p` of `line` is at index `LineIdx(w, line, p)` of the mesh. */
  lemma LineCellAt(m: seq<int>, w: Positive, h: int, line: Line, p: int)
    requires Fits(m, w, h) && OnGrid(w, h, line, p)
    ensures 0 <= LineIdx(w, line, p) < |m| && LineCell(m, w, h, line, p) == m[LineIdx(w, line, p)]
  {
    if line.vertical { InBounds(w, h, line.k, p); } else { InBounds(w, h, p, line.k); }
  }

  /** Every cell of the walk `wk`, from its start up to and including `stop`, is on the grid
      and holds a mark, and `stop` is no further than the walk's bound. */
  ghost predicate WalkMarked(m: seq<int>, w: Positive, h: int, wk: Walk, stop: int)
    requires Fits(m, w, h)
  {
    Toward(wk.from, stop, wk.step) && Toward(stop, wk.bound, wk.step) &&
    forall q :: Toward(wk.from, q, wk.step) && Toward(q, stop, wk.step) ==>
      OnGrid(w, h, wk.line, q) && LineCell(m, w, h, wk.line, q) == TMP
  }

  /** The walk from the door of `face` is marked from the cell next to the door up to where
      it stopped, at the latest on the section's perimeter. */
  ghost predicate DoorMarked(m: seq<int>, w: Positive, h: int, room: Room, face: Face)
    requires Fits(m, w, h) && IsFace(face)
  {
    room.HasDoor(face) ==> exists stop :: WalkMarked(m, w, h, DoorWalk(room, face), stop)
  }

  /** The probe from the door of `face` marks its whole walk. */
  lemma DoorProbeMarks(m: seq<int>, w: Positive, h: int, room: Room, face: Face)
    requires IsFace(face) && ProbeReady(m, w, h, room)
    ensures DoorMarked(DoorProbe(m, w, h, room, face), w, h, room, face)
  {
    if room.HasDoor(face) {
      var wk := DoorWalk(room, face);
      var r := DoorProbe(m, w, h, room, face);
      InBounds(w, h, if wk.line.vertical then wk.line.k else wk.bound, if wk.line.vertical then wk.bound else wk.line.k);
      assert ProbeOk(m, w, h, wk.line, wk.from, wk.step, wk.bound);
      assert r == Probe(m, w, h, wk.line, wk.from, wk.step, wk.bound);
      var stop := ScanTo(m, w, h, wk.line, wk.from, wk.step, wk.bound);
      forall q | Toward(wk.from, q, wk.step) && Toward(q, stop, wk.step)
        ensures OnGrid(w, h, wk.line, q) && LineCell(r, w, h, wk.line, q) == TMP
      {
        ProbeMarksWalk(m, w, h, wk.line, wk.from, wk.step, wk.bound, q);
      }
      assert WalkMarked(r, w, h, wk, stop);
    }
  }

  /** After `putTempCove(room)` the perimeter of the room's section and the walk from each
      of its doors are marked, and no cell of the room has changed. */
  lemma {:induction false} TempCovesShape(m: seq<int>, w: Positive, h: int, room: Room)
    requires Fits(m, w, h) && Placed(room) && SectionFits(room.section, w, h)
    ensures var r := TempCoves(m, w, h, room);
      Fits(r, w, h) && BorderMarked(r, w, h, room.section) &&
      (forall i :: 0 <= i < |m| && InRoom(room, Col(w, i), Row(w, i)) ==> r[i] == m[i]) &&
      DoorMarked(r, w, h, room, FACE_RIGHT) && DoorMarked(r, w, h, room, FACE_LEFT) &&
      DoorMarked(r, w, h, room, FACE_BOTTOM) && DoorMarked(r, w, h, room, FACE_TOP)
  {
    FrameBorder(m, w, h, room.section);
    var m1 := Frame(m, w, room.section);
    var m2 := DoorProbe(m1, w, h, room, FACE_RIGHT);
    var m3 := DoorProbe(m2, w, h, room, FACE_LEFT);
    var m4 := DoorProbe(m3, w, h, room, FACE_BOTTOM);
    var r := DoorProbe(m4, w, h, room, FACE_TOP);
    assert r == TempCoves(m, w, h, room);
    forall i | 0 <= i < |m| && InRoom(room, Col(w, i), Row(w, i)) ensures r[i] == m[i] {
      assert m1[i] == m[i];
    }
    DoorProbeMarks(m1, w, h, room, FACE_RIGHT);
    DoorProbeMarks(m2, w, h, room, FACE_LEFT);
    DoorProbeMarks(m3, w, h, room, FACE_BOTTOM);
    DoorProbeMarks(m4, w, h, room, FACE_TOP);
    DoorMarkKept(m2, m3, w, h, room, FACE_RIGHT);
    DoorMarkKept(m3, m4, w, h, room, FACE_RIGHT);
    DoorMarkKept(m4, r, w, h, room, FACE_RIGHT);
    DoorMarkKept(m3, m4, w, h, room, FACE_LEFT);
    DoorMarkKept(m4, r, w, h, room, FACE_LEFT);
    DoorMarkKept(m4, r, w, h, room, FACE_BOTTOM);
  }

  /** A marked walk stays marked under any pass that keeps every mark. */
  lemma DoorMarkKept(m: seq<int>, r: seq<int>, w: Positive, h: int, room: Room, face: Face)
    requires Fits(m, w, h) && Fits(r, w, h) && IsFace(face) && DoorMarked(m, w, h, room, face)
    requires forall i :: 0 <= i < |m| && m[i] == TMP ==> r[i] == TMP
    ensures DoorMarked(r, w, h, room, face)
  {
    if room.HasDoor(face) {
      var wk := DoorWalk(room, face);
      var stop :| WalkMarked(m, w, h, wk, stop);
      forall q | Toward(wk.from, q, wk.step) && Toward(q, stop, wk.step)
        ensures OnGrid(w, h, wk.line, q) && LineCell(r, w, h, wk.line, q) == TMP
      {
        LineCellAt(m, w, h, wk.line, q);
        LineCellAt(r, w, h, wk.line, q);
      }
      assert WalkMarked(r, w, h, wk, stop);
    }
  }

  // ---------------------------------------------------------------------------
  // putCove and the door corridors
  // ---------------------------------------------------------------------------

  /** Every cell of the cove lies in the grid. */
  ghost predicate CoveFits(c: Cove, w: Positive, h: int)
  {
    forall x, y :: c.Covers(x, y) ==> InGrid(w, h, x, y)
  }

  /** The mesh after `putCove(c)`. */
  function Paint(m: seq<int>, w: Positive, c: Cove): (r: seq<int>)
    ensures |r| == |m| && (AllCodes(m) ==> AllCodes(r))
  {
    seq(|m|, i requires 0 <= i < |m| => if c.Covers(Col(w, i), Row(w, i)) then COVE else m[i])
  }

  /** `putCove` shows corridor at every cell `getCoord` lists, and a changed cell is one of them. */
  lemma PaintCells(m: seq<int>, w: Positive, h: int, c: Cove)
    requires Fits(m, w, h) && CoveFits(c, w, h)
    ensures var r := Paint(m, w, c); var cs := c.Cells();
      Fits(r, w, h) &&
      (forall k :: 0 <= k < |cs| ==> InGrid(w, h, cs[k].x, cs[k].y) && Cell(r, w, h, cs[k].x, cs[k].y) == COVE) &&
      (forall i :: 0 <= i < |m| && r[i] != m[i] ==> Coord(Col(w, i), Row(w, i)) in cs)
  {
    var r := Paint(m, w, c);
    var cs := c.Cells();
    forall k | 0 <= k < |cs| ensures InGrid(w, h, cs[k].x, cs[k].y) && Cell(r, w, h, cs[k].x, cs[k].y) == COVE {
      var x, y := cs[k].x, cs[k].y;
      assert c.Covers(x, y);
      CellIndex(w, x, y);
      InBounds(w, h, x, y);
      assert Cell(r, w, h, x, y) == r[Idx(w, x, y)];
    }
    forall i | 0 <= i < |m| && r[i] != m[i] ensures Coord(Col(w, i), Row(w, i)) in cs {
      CellsCover(c);
      assert c.Covers(Col(w, i), Row(w, i));
    }
  }

  /** The corridor the constructor lays from the door of `face` to the section's perimeter:
      from the section's edge up to the room's edge (left, top), or from the room's edge to
      the section's edge (right, bottom). */
  function DoorCove(room: Room, face: Face): Cove
    requires IsFace(face)
  {
    var s := room.section;
    var p := room.DoorPos(face);
    if face == FACE_LEFT then NewCove(room.left, p, DIRECTION_H, s.left - room.left)
    else if face == FACE_RIGHT then NewCove(room.Right(), p, DIRECTION_H, s.Right() - room.Right())
    else if face == FACE_TOP then NewCove(p, s.top, DIRECTION_V, room.top - s.top)
    else NewCove(p, room.Bottom(), DIRECTION_V, s.Bottom() - room.Bottom())
  }

  /** The corridors pushed for one room, in the order left, right, top, bottom. */
  function DoorCoves(room: Room): seq<Cove>
  {
    (if room.HasDoor(FACE_LEFT) then [DoorCove(room, FACE_LEFT)] else []) +
    (if room.HasDoor(FACE_RIGHT) then [DoorCove(room, FACE_RIGHT)] else []) +
    (if room.HasDoor(FACE_TOP) then [DoorCove(room, FACE_TOP)] else []) +
    (if room.HasDoor(FACE_BOTTOM) then [DoorCove(room, FACE_BOTTOM)] else [])
  }

  predicate InSection(s: Section, x: int, y: int)
  {
    s.left <= x < s.Right() && s.top <= y < s.Bottom()
  }

  /** A door's corridor runs, inside the section and outside the room, from the cell next to
      the door (the start of the door's probe) to the section's perimeter. */
  lemma DoorCoveSpan(room: Room, face: Face)
    requires Placed(room) && IsFace(face) && room.HasDoor(face)
    ensures var c, wk := DoorCove(room, face), DoorWalk(room, face);
      var (x0, y0) := if wk.line.vertical then (wk.line.k, wk.from) else (wk.from, wk.line.k);
      var (x1, y1) := if wk.line.vertical then (wk.line.k, wk.bound) else (wk.bound, wk.line.k);
      c.Covers(x0, y0) && c.Covers(x1, y1) && OnBorder(room.section, x1, y1) &&
      forall x, y :: c.Covers(x, y) ==> InSection(room.section, x, y) && !InRoom(room, x, y)
  {
  }

  /** Every corridor of a placed room in a section inside the grid lies in the grid. */
  lemma DoorCovesFit(room: Room, w: Positive, h: int)
    requires Placed(room) && SectionFits(room.section, w, h)
    ensures forall c :: c in DoorCoves(room) ==> CoveFits(c, w, h)
  {
  }

  // ---------------------------------------------------------------------------
  // makeCove
  // ---------------------------------------------------------------------------

  /** Positions [p, end) of `line` can be read. */
  predicate Scannable(m: seq<int>, w: Positive, h: int, line: Line, p: int, end: int)
  {
    Fits(m, w, h) && (p < end ==> OnGrid(w, h, line, p) && OnGrid(w, h, line, end - 1))
  }

  /** The corridor from position `from` of `line` up to (not including) position `to`. */
  function JoinCove(line: Line, from: int, to: int): Cove
  {
    if line.vertical then NewCove(line.k, from, DIRECTION_V, to - from)
    else NewCove(from, line.k, DIRECTION_H, to - from)
  }

  /** The corridors `makeCove` pushes while scanning positions [p, end) of `line`, where
      `from` is the first corridor cell met so far, or -1: the first corridor cell becomes
      `from`, and each later one is joined to it (`from` is never moved on). */
  function Joins(m: seq<int>, w: Positive, h: int, line: Line, p: int, end: int, from: int): seq<Cove>
    requires Scannable(m, w, h, line, p, end)
    decreases end - p
  {
    if p >= end then []
    else if LineCell(m, w, h, line, p) == COVE then
      if from == -1 then Joins(m, w, h, line, p + 1, end, p)
      else [JoinCove(line, from, p)] + Joins(m, w, h, line, p + 1, end, from)
    else Joins(m, w, h, line, p + 1, end, from)
  }

  /** The positions in [p, end) of `line` that hold corridor, in increasing order. */
  function Corridors(m: seq<int>, w: Positive, h: int, line: Line, p: int, end: int): (ps: seq<int>)
    requires Scannable(m, w, h, line, p, end)
    ensures forall j :: 0 <= j < |ps| ==> p <= ps[j] < end
    ensures forall j, l :: 0 <= j < l < |ps| ==> ps[j] < ps[l]
    ensures forall q :: p <= q < end ==> (q in ps <==> LineCell(m, w, h, line, q) == COVE)
    decreases end - p
  {
    if p >= end then []
    else (if LineCell(m, w, h, line, p) == COVE then [p] else []) + Corridors(m, w, h, line, p + 1, end)
  }

  /** `from` joined to each of `ps`, in order. */
  function JoinAll(line: Line, from: int, ps: seq<int>): (cs: seq<Cove>)
    ensures |cs| == |ps|
  {
    seq(|ps|, j requires 0 <= j < |ps| => JoinCove(line, from, ps[j]))
  }

  lemma {:induction false} JoinsFrom(m: seq<int>, w: Positive, h: int, line: Line, p: int, end: int, from: int)
    requires Scannable(m, w, h, line, p, end) && from != -1
    ensures Joins(m, w, h, line, p, end, from) == JoinAll(line, from, Corridors(m, w, h, line, p, end))
    decreases end - p
  {
    if p < end {
      JoinsFrom(m, w, h, line, p + 1, end, from);
      var rest := Corridors(m, w, h, line, p + 1, end);
      if LineCell(m, w, h, line, p) == COVE {
        assert Corridors(m, w, h, line, p, end) == [p] + rest;
        JoinAllCons(line, from, p, rest);
      } else {
        assert Corridors(m, w, h, line, p, end) == rest;
      }
    }
  }

  /** Joining to a list that starts with `q` starts with the join to `q`. */
  lemma JoinAllCons(line: Line, from: int, q: int, ps: seq<int>)
    ensures JoinAll(line, from, [q] + ps) == [JoinCove(line, from, q)] + JoinAll(line, from, ps)
  {
    var l, r := JoinAll(line, from, [q] + ps), [JoinCove(line, from, q)] + JoinAll(line, from, ps);
    assert forall j :: 0 <= j < |l| ==> l[j] == r[j];
  }

  /** The scan of `makeCove` joins the first corridor cell of the range to every later
      corridor cell of the range, and pushes nothing when there are fewer than two. */
  lemma {:induction false} JoinsFromFirst(m: seq<int>, w: Positive, h: int, line: Line, p: int, end: int)
    requires Scannable(m, w, h, line, p, end) && 0 <= p
    ensures var ps := Corridors(m, w, h, line, p, end);
      Joins(m, w, h, line, p, end, -1) == if ps == [] then [] else JoinAll(line, ps[0], ps[1..])
    decreases end - p
  {
    if p < end {
      if LineCell(m, w, h, line, p) == COVE {
        JoinsFrom(m, w, h, line, p + 1, end, p);
      } else {
        JoinsFromFirst(m, w, h, line, p + 1, end);
      }
    }
  }

  /** Every corridor `makeCove` pushes lies on the scanned line, inside the scanned range. */
  lemma JoinsFit(m: seq<int>, w: Positive, h: int, line: Line, p: int, end: int)
    requires Scannable(m, w, h, line, p, end) && 0 <= p
    ensures forall c :: c in Joins(m, w, h, line, p, end, -1) ==> CoveFits(c, w, h)
  {
    JoinsFromFirst(m, w, h, line, p, end);
    var ps := Corridors(m, w, h, line, p, end);
    forall c | c in Joins(m, w, h, line, p, end, -1) ensures CoveFits(c, w, h) {
      var j :| 0 <= j < |ps| - 1 && c == JoinCove(line, ps[0], ps[j + 1]);
      JoinCoveFits(w, h, line, p, end, ps[0], ps[j + 1]);
    }
  }

  /** A join between two positions of a range whose ends lie in the grid lies in the grid. */
  lemma JoinCoveFits(w: Positive, h: int, line: Line, lo: int, end: int, from: int, to: int)
    requires lo <= from < to < end && OnGrid(w, h, line, lo) && OnGrid(w, h, line, end - 1)
    ensures CoveFits(JoinCove(line, from, to), w, h)
  {
  }

  /** Everything `makeCove(a, b)` pushes once it has found `a` and `b` to be distinct siblings:
      the scan down `a`'s left column, then the scan along `a`'s top row. */
  function SiblingJoins(m: seq<int>, w: Positive, h: int, a: Section): seq<Cove>
    requires Fits(m, w, h) && SectionFits(a, w, h)
  {
    Joins(m, w, h, Line(true, a.left), a.top, a.Bottom(), -1) +
    Joins(m, w, h, Line(false, a.top), a.left, a.Right(), -1)
  }
}
