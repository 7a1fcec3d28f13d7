/** Dungeon: class Rogue, which partitions the map, places the rooms, and carves rooms and
    corridors into its mesh in place. */
module Dungeon {
  import opened Xorshift
  import opened Sections
  import opened Rooms
  import opened Coves
  import opened Mesh
  import opened Pipeline

  /** What `createRooms` leaves behind: `room_num` rooms and a registry of
      `2 * room_num - 1` sections forming a containment tree rooted at the map, with the k-th room
      placed in the k-th of the leaves that end the registry. */
  ghost predicate Stocked(rooms: seq<Room>, sections: seq<Section>, width: Positive, height: int, room_num: int)
  {
    |rooms| == room_num && |sections| == (if room_num == 0 then 1 else 2 * room_num - 1) &&
    RegistryTree(sections, width, height) && RoomsFit(rooms, width, height) &&
    forall k :: 0 <= k < room_num ==>
      Placed(rooms[k]) && rooms[k].section == sections[|sections| - room_num + k]
  }

  class Rogue {
    const width: Positive
    const height: Positive
    /** The tiles, row after row: cell (x, y) is `mesh[x + y * width]`. */
    const mesh: array<int>
    var rooms: seq<Room>
    var coves: seq<Cove>
    /** The section registry: every section split by `divide`, then the final leaves. A
        section's `parent` is an index into this sequence. */
    var sections: seq<Section>
    const r: Random
    /** False when the model stopped where the source would not (see Divide and
        CreateRoomInFitTo). */
    var complete: bool

    /** `new Rogue(width, height, room_num, rand_seed)`. A zero seed stands for the source's
        falsy seeds, which fall back to the clock; the clock reading is the parameter `now`.
        When every phase runs (`complete`), the registry is a containment tree rooted at the
        map with the leaves last, each room is placed in its leaf, and the mesh and the corridor list
        are those of Render. */
    constructor (width: Positive, height: Positive, room_num: int, seed: int, now: int, attempts: nat)
      requires room_num >= 0
      ensures Valid() && this.width == width && this.height == height
      ensures complete == Generated(Seeded(if seed != 0 then seed else now), width, height, room_num, attempts)
      ensures complete ==> Finished(room_num)
    {
      this.width, this.height := width, height;
      MulMono(0, height, width);
      mesh := new int[width * height](_ => BLANK);
      sections, coves, rooms := [], [], [];
      r := new Random(if seed != 0 then seed else now);
      complete := false;
      new;
      ghost var s0 := r.Current();
      assert s0 == Seeded(if seed != 0 then seed else now);
      Build(room_num, attempts);
    }

    /** The body of the constructor once the fields are set: `createRooms`, then the
        carving of rooms and corridors. */
    method Build(room_num: int, attempts: nat)
      requires Valid() && room_num >= 0 && sections == [] && coves == [] && !complete
      requires forall k :: 0 <= k < mesh.Length ==> mesh[k] == BLANK
      modifies this`sections, this`rooms, this`coves, this`complete, mesh, r
      ensures complete == Generated(old(r.Current()), width, height, room_num, attempts)
      ensures complete ==> Finished(room_num)
    {
      var rs, ok := CreateRooms(room_num, attempts);
      rooms := rs;
      if !ok {
        return;
      }
      Generate();
      complete := true;
    }

    ghost predicate Valid()
      reads this
    {
      mesh.Length == width * height
    }

    /** What a completed constructor leaves behind: the rooms and sections of `Stocked`, and
        the mesh and the corridor list that Render computes from them. */
    ghost predicate Finished(room_num: int)
      reads this, mesh
    {
      Stocked(rooms, sections, width, height, room_num) &&
      (mesh[..], coves) == Render(width, height, rooms, sections)
    }


    /** `m` is the current content of the mesh. The scans of `makeCove` are stated against
        such a snapshot: they only read the mesh while the corridor list grows. */
    ghost predicate Shows(m: seq<int>)
      reads mesh
    {
      |m| == mesh.Length && forall k :: 0 <= k < mesh.Length ==> mesh[k] == m[k]
    }

    // -------------------------------------------------------------------------
    // Passes over the mesh
    // -------------------------------------------------------------------------

    /** `deleteTempCove`: every temporary mark becomes blank. */
    method DeleteTempCove()
      modifies mesh
      ensures mesh[..] == ClearTemp(old(mesh[..]))
    {
      var i := 0;
      while i < mesh.Length
        invariant 0 <= i <= mesh.Length
        invariant forall k :: 0 <= k < i ==> mesh[k] == if old(mesh[k]) == TMP then BLANK else old(mesh[k])
        invariant forall k :: i <= k < mesh.Length ==> mesh[k] == old(mesh[k])
      {
        if mesh[i] == TMP {
          mesh[i] := BLANK;
        }
        i := i + 1;
      }
    }

    /** `putRoom`: walls, floor, then the doors. */
    method PutRoom(room: Room)
      requires Valid() && Placed(room) && SectionFits(room.section, width, height)
      modifies mesh
      ensures mesh[..] == Carve(old(mesh[..]), width, room)
    {
      IndicesOfCells(width);
      var x := room.left;
      while x < room.Right()
        invariant room.left <= x <= room.Right()
        invariant forall i :: 0 <= i < mesh.Length ==>
          mesh[i] == (if InRoom(room, Col(width, i), Row(width, i)) && Col(width, i) < x then WallCode(room, Col(width, i), Row(width, i)) else old(mesh[i]))
      {
        var y := room.top;
        while y < room.Bottom()
          invariant room.top <= y <= room.Bottom()
          invariant forall i :: 0 <= i < mesh.Length ==>
            mesh[i] == (if InRoom(room, Col(width, i), Row(width, i)) && (Col(width, i) < x || (Col(width, i) == x && Row(width, i) < y)) then WallCode(room, Col(width, i), Row(width, i)) else old(mesh[i]))
        {
          CellIndex(width, x, y);
          InBounds(width, height, x, y);
          if x == room.left || x == room.Right() - 1 {
            mesh[x + y * width] := VWALL;
          } else if y == room.top || y == room.Bottom() - 1 {
            mesh[x + y * width] := HWALL;
          } else {
            mesh[x + y * width] := FLOOR;
          }
          y := y + 1;
        }
        x := x + 1;
      }
      ghost var walls := mesh[..];
      PutDoor(room, FACE_RIGHT);
      PutDoor(room, FACE_LEFT);
      PutDoor(room, FACE_TOP);
      PutDoor(room, FACE_BOTTOM);
      forall i | 0 <= i < mesh.Length ensures mesh[i] == Carve(old(mesh[..]), width, room)[i] {
        assert mesh[i] == if IsDoorCell(room, Col(width, i), Row(width, i)) then DOOR else walls[i];
      }
    }

    /** One door write of `putRoom`: the wall cell of the door of `face`, if there is one. */
    method PutDoor(room: Room, face: Face)
      requires Valid() && IsFace(face) && Placed(room) && SectionFits(room.section, width, height)
      modifies mesh
      ensures forall i :: 0 <= i < mesh.Length ==>
        mesh[i] == (if DoorAt(room, face, Col(width, i), Row(width, i)) then DOOR else old(mesh[i]))
    {
      if room.HasDoor(face) {
        var p := room.DoorPos(face);
        var x, y :=
          if face == FACE_RIGHT then room.Right() - 1
          else if face == FACE_LEFT then room.left
          else p,
          if face == FACE_RIGHT || face == FACE_LEFT then p
          else if face == FACE_TOP then room.top
          else room.Bottom() - 1;
        CellIndex(width, x, y);
        InBounds(width, height, x, y);
        IndicesOfCells(width);
        mesh[x + y * width] := DOOR;
      }
    }

    /** The first loops of `putTempCove`: mark the perimeter of section `s`. */
    method MarkBorder(s: Section)
      requires Valid() && SectionFits(s, width, height)
      modifies mesh
      ensures mesh[..] == Frame(old(mesh[..]), width, s)
    {
      IndicesOfCells(width);
      var x := s.left;
      while x < s.Right()
        invariant s.left <= x <= s.Right()
        invariant forall i :: 0 <= i < mesh.Length ==>
          mesh[i] == (if OnBorder(s, Col(width, i), Row(width, i)) && Col(width, i) < x then TMP else old(mesh[i]))
      {
        var y := s.top;
        while y < s.Bottom()
          invariant s.top <= y <= s.Bottom()
          invariant forall i :: 0 <= i < mesh.Length ==>
            mesh[i] == (if OnBorder(s, Col(width, i), Row(width, i)) && (Col(width, i) < x || (Col(width, i) == x && Row(width, i) < y)) then TMP else old(mesh[i]))
        {
          if x == s.left || x == s.Right() - 1 || y == s.top || y == s.Bottom() - 1 {
            CellIndex(width, x, y);
            InBounds(width, height, x, y);
            mesh[x + y * width] := TMP;
          }
          y := y + 1;
        }
        x := x + 1;
      }
    }

    /** One probe loop of `putTempCove`: walk from `from` by `step`, marking every cell until
        one already holds a mark. */
    method RunProbe(line: Line, from: int, step: int, bound: int)
      requires Valid() && ProbeOk(mesh[..], width, height, line, from, step, bound)
      modifies mesh
      ensures mesh[..] == Probe(old(mesh[..]), width, height, line, from, step, bound)
    {
      ghost var m0 := mesh[..];
      ghost var stop := ScanTo(m0, width, height, line, from, step, bound);
      IndicesOfCells(width);
      var p := from;
      InBounds(width, height, if line.vertical then line.k else p, if line.vertical then p else line.k);
      while mesh[LineIdx(width, line, p)] != TMP
        invariant Toward(from, p, step) && Toward(p, stop, step) && OnGrid(width, height, line, p)
        invariant 0 <= LineIdx(width, line, p) < mesh.Length
        invariant forall i :: 0 <= i < mesh.Length ==>
          mesh[i] == (if OnLine(width, line, i) && Between(from, p, step, Along(width, line, i)) then TMP else m0[i])
        decreases if step > 0 then stop - p else p - stop
      {
        var x, y := if line.vertical then line.k else p, if line.vertical then p else line.k;
        CellIndex(width, x, y);
        assert LineCell(m0, width, height, line, p) == m0[LineIdx(width, line, p)];
        mesh[LineIdx(width, line, p)] := TMP;
        p := p + step;
        InBounds(width, height, if line.vertical then line.k else p, if line.vertical then p else line.k);
      }
      var x, y := if line.vertical then line.k else p, if line.vertical then p else line.k;
      CellIndex(width, x, y);
      assert LineCell(m0, width, height, line, p) == m0[LineIdx(width, line, p)];
      assert p == stop;
    }

    /** The probe of `putTempCove` for the door of `face`, if the room has one. */
    method ProbeDoor(room: Room, face: Face)
      requires Valid() && IsFace(face) && ProbeReady(mesh[..], width, height, room)
      modifies mesh
      ensures mesh[..] == DoorProbe(old(mesh[..]), width, height, room, face)
    {
      if room.HasDoor(face) {
        var wk := DoorWalk(room, face);
        InBounds(width, height, if wk.line.vertical then wk.line.k else wk.bound, if wk.line.vertical then wk.bound else wk.line.k);
        RunProbe(wk.line, wk.from, wk.step, wk.bound);
      }
    }

    /** `putTempCove`: mark the section's perimeter, then probe out of each door. */
    method PutTempCove(room: Room)
      requires Valid() && Placed(room) && SectionFits(room.section, width, height)
      modifies mesh
      ensures mesh[..] == TempCoves(old(mesh[..]), width, height, room)
    {
      MarkBorder(room.section);
      FrameBorder(old(mesh[..]), width, height, room.section);
      ProbeDoor(room, FACE_RIGHT);
      ProbeDoor(room, FACE_LEFT);
      ProbeDoor(room, FACE_BOTTOM);
      ProbeDoor(room, FACE_TOP);
    }

    /** `putCove`: every cell `getCoord` lists becomes corridor. */
    method PutCove(c: Cove)
      requires Valid() && CoveFits(c, width, height)
      modifies mesh
      ensures mesh[..] == Paint(old(mesh[..]), width, c)
    {
      IndicesOfCells(width);
      CellsCover(c);
      var cs := c.GetCoord();
      var k := 0;
      while k < |cs|
        invariant 0 <= k <= |cs|
        invariant forall i :: 0 <= i < mesh.Length ==>
          mesh[i] == (if Coord(Col(width, i), Row(width, i)) in cs[..k] then COVE else old(mesh[i]))
      {
        var x, y := cs[k].x, cs[k].y;
        assert c.Covers(x, y);
        CellIndex(width, x, y);
        InBounds(width, height, x, y);
        mesh[x + y * width] := COVE;
        assert cs[..k + 1] == cs[..k] + [cs[k]];
        k := k + 1;
      }
      assert cs[..k] == cs;
    }

    // -------------------------------------------------------------------------
    // Corridors between siblings
    // -------------------------------------------------------------------------

    /** `makeCove(a, b)` for the registry entries `ai` and `bi`: when the two are distinct
        children of the same section, push the joins of the scan down `a`'s left column and
        then along `a`'s top row. The mesh is only read. */
    method MakeCove(ai: int, bi: int, ghost m: seq<int>)
      requires Valid() && Shows(m) && 0 <= ai < |sections| && 0 <= bi < |sections|
      requires SectionFits(sections[ai], width, height)
      modifies this`coves
      ensures coves == old(coves) + PairJoins(m, width, height, sections, ai, bi)
    {
      var a, b := sections[ai], sections[bi];
      if a.parent == -1 || b.parent == -1 || ai == bi {
        return;
      }
      if a.parent == b.parent {
        ScanJoins(Line(true, a.left), a.top, a.Bottom(), m);
        ScanJoins(Line(false, a.top), a.left, a.Right(), m);
      }
    }

    /** One scan of `makeCove` over positions [lo, end) of `line` (`a`'s left column, or its
        top row): the first corridor cell becomes `from`, and every later corridor cell is
        joined to it by a new cove. */
    method ScanJoins(line: Line, lo: int, end: int, ghost m: seq<int>)
      requires Valid() && Shows(m) && 0 <= lo && Scannable(m, width, height, line, lo, end)
      modifies this`coves
      ensures coves == old(coves) + Joins(m, width, height, line, lo, end, -1)
    {
      var from := -1;
      var p := lo;
      while p < end
        invariant lo <= p && (lo <= end ==> p <= end)
        invariant from == -1 || lo <= from < p
        invariant coves + Joins(m, width, height, line, p, end, from) ==
                  old(coves) + Joins(m, width, height, line, lo, end, -1)
      {
        InBounds(width, height, if line.vertical then line.k else p, if line.vertical then p else line.k);
        assert LineCell(m, width, height, line, p) == mesh[LineIdx(width, line, p)];
        if mesh[LineIdx(width, line, p)] == COVE {
          if from == -1 {
            from := p;
          } else {
            coves := coves + [JoinCove(line, from, p)];
          }
        }
        p := p + 1;
      }
    }

    // -------------------------------------------------------------------------
    // The partition
    // -------------------------------------------------------------------------

    /** `vDivide(p)`: cut `p` vertically at a drawn offset in [MIN + 3, p.width - (MIN + 3)].
        The children's parent is the index `p` receives when `divide` registers it. */
    method VDivide(p: Section) returns (c: (Section, Section))
      requires CutDrawable(p.width)
      modifies r
      ensures r.Current() == Step(old(r.Current()))
      ensures c == VSplit(p, NextIntOf(Output(r.Current()), MIN + 3, p.width - (MIN + 3)), |sections|)
    {
      var d := r.NextInt(MIN + 3, p.width - (MIN + 3));
      c := VSplit(p, d, |sections|);
    }

    /** `hDivide(p)`: the same across the height. */
    method HDivide(p: Section) returns (c: (Section, Section))
      requires CutDrawable(p.height)
      modifies r
      ensures r.Current() == Step(old(r.Current()))
      ensures c == HSplit(p, NextIntOf(Output(r.Current()), MIN + 3, p.height - (MIN + 3)), |sections|)
    {
      var d := r.NextInt(MIN + 3, p.height - (MIN + 3));
      c := HSplit(p, d, |sections|);
    }

    /** `divide(leaves)`: sort the leaves by area (stably, largest first), cut the first one,
        append its two children, remove it from the leaves and register it. */
    method Divide(leaves: seq<Section>) returns (leaves': seq<Section>)
      requires leaves != [] && CutDrawable(SplitSpan(SortByArea(leaves)[0]))
      modifies this`sections, r
      ensures r.Current() == Step(old(r.Current()))
      ensures var sorted := SortByArea(leaves);
        var d := NextIntOf(Output(r.Current()), MIN + 3, SplitSpan(sorted[0]) - (MIN + 3));
        var c := Split(sorted[0], d, |old(sections)|);
        sections == old(sections) + [sorted[0]] && leaves' == sorted[1..] + [c.0, c.1]
    {
      var sorted := SortByArea(leaves);
      var p := sorted[0];
      var c;
      if p.width > p.height {
        c := VDivide(p);
      } else {
        c := HDivide(p);
      }
      leaves' := sorted + [c.0, c.1];
      // The sorted list holds `p` at index 0, where the search for it stops.
      leaves' := leaves'[1..];
      sections := sections + [p];
    }

    /** `createRoomInFitTo(section)`: draw two columns at least MIN apart inside the section's
        margin, then two rows likewise, and put a door on every face whose bit the section
        has. Each retry loop gives up after `attempts` rounds (`ok` is then false), and so
        does a section one cell wide or high, whose draws the source cannot compute. */
    method CreateRoomInFitTo(section: Section, attempts: nat) returns (room: Room, ok: bool)
      requires 0 <= section.left && 0 <= section.top && 1 <= section.width && 1 <= section.height
      modifies r
      ensures (ok, room, r.Current()) == RoomDraw(old(r.Current()), section, attempts)
    {
      room := NoRoom(section);
      ok := false;
      if section.width == 1 || section.height == 1 {
        return;
      }
      ghost var dx := Draws(r.Current(), section.left + 1, section.Right() - 1, attempts);
      ghost var dy := Draws(dx.2, section.top + 1, section.Bottom() - 1, attempts);
      RoomDrawStops(r.Current(), section, attempts, dx, dy);
      RoomDrawFrom(r.Current(), section, attempts, dx, dy);
      var x, w, okX := DrawSpan(section.left + 1, section.Right() - 1, attempts);
      if !okX {
        return;
      }
      var y, h, okY := DrawSpan(section.top + 1, section.Bottom() - 1, attempts);
      if !okY {
        return;
      }
      room := DrawDoors(section, x, w, y, h);
      ok := true;
    }

    /** The builder part of `createRoomInFitTo`: a builder for the drawn rectangle, then
        the door of each face in the order right, left, bottom, top. */
    method DrawDoors(section: Section, x: int, w: int, y: int, h: int) returns (room: Room)
      requires w >= MIN && h >= MIN
      modifies r
      ensures (room, r.Current()) == DoorsDraw(old(r.Current()), section, x, w, y, h)
    {
      ghost var s0 := r.Current();
      var builder := new RoomBuilder(y, x, w, h, section);
      ghost var right := DoorDraw(s0, section.face, FACE_RIGHT, y + 1, y + h - 2);
      DrawDoor(builder, FACE_RIGHT, y + 1, y + h - 2);
      ghost var left := DoorDraw(right.1, section.face, FACE_LEFT, y + 1, y + h - 2);
      DrawDoor(builder, FACE_LEFT, y + 1, y + h - 2);
      ghost var bottom := DoorDraw(left.1, section.face, FACE_BOTTOM, x + 1, x + w - 2);
      DrawDoor(builder, FACE_BOTTOM, x + 1, x + w - 2);
      ghost var top := DoorDraw(bottom.1, section.face, FACE_TOP, x + 1, x + w - 2);
      DrawDoor(builder, FACE_TOP, x + 1, x + w - 2);
      SlotsFilled(top.0, left.0, right.0, bottom.0);
      room := builder.Build();
      DoorsDrawIs(s0, section, x, w, y, h);
    }

    /** One retry loop of `createRoomInFitTo`: draw pairs in [lo, hi] until they are at least
        MIN apart, and return the smaller one and the distance. */
    method DrawSpan(lo: int, hi: int, attempts: nat) returns (start: int, len: int, ok: bool)
      requires lo <= hi
      modifies r
      ensures var d := Draws(old(r.Current()), lo, hi, attempts);
        r.Current() == d.2 && ok == Apart(d.0, d.1) && start == Min(d.0, d.1) && len == Max(d.0, d.1) - start
      ensures ok ==> lo <= start && start + len <= hi && MIN <= len
    {
      var a, b, n := 0, 0, 0;
      while Abs(a - b) < MIN && n < attempts
        invariant n <= attempts
        invariant n == 0 ==> a == 0 && b == 0
        invariant n > 0 ==> lo <= a <= hi && lo <= b <= hi
        invariant Draws(old(r.Current()), lo, hi, attempts) ==
          if n > 0 && (Apart(a, b) || n == attempts) then (a, b, r.Current()) else Draws(r.Current(), lo, hi, attempts - n)
        decreases attempts - n
      {
        a := r.NextInt(lo, hi);
        b := r.NextInt(lo, hi);
        n := n + 1;
      }
      ok := Abs(a - b) >= MIN;
      start := Min(a, b);
      len := Max(a, b) - start;
    }

    /** One door of `createRoomInFitTo`: when the section has the bit of `face`, draw its
        position in [lo, hi] and record it; otherwise leave the slot alone. */
    method DrawDoor(builder: RoomBuilder, face: Face, lo: int, hi: int)
      requires IsFace(face) && builder.door.Length == 4 && lo <= hi
      requires builder.door[FaceIndex(face)] == NO_DOOR
      modifies r, builder.door
      ensures var dd := DoorDraw(old(r.Current()), builder.section.face, face, lo, hi);
        r.Current() == dd.1 && builder.door[..] == old(builder.door[..])[FaceIndex(face) := dd.0]
    {
      if builder.section.face & face != 0 {
        var pos := r.NextInt(lo, hi);
        builder.AddDoor(face, pos);
      }
    }

    // -------------------------------------------------------------------------
    // The constructor's phases
    // -------------------------------------------------------------------------

    /** `createRooms(room_num)`: split the map `room_num - 1` times, place a room in each of
        the first `room_num` leaves, and register the leaves after the split sections. `ok`
        is false when a cut cannot be drawn or leaves the section it cuts, or when a room
        cannot be placed within `attempts` rounds. */
    method CreateRooms(room_num: int, attempts: nat) returns (rs: seq<Room>, ok: bool)
      requires room_num >= 0 && sections == []
      modifies this`sections, r
      ensures ok == Generated(old(r.Current()), width, height, room_num, attempts)
      ensures ok ==> Stocked(rs, sections, width, height, room_num)
    {
      rs, ok := [], false;
      ghost var s0 := r.Current();
      var tmp, split := SplitMap(room_num);
      if !split {
        GeneratedFrom(s0, width, height, room_num, attempts, r.Current(), tmp, false, false);
        return;
      }
      GrowingFits(sections, tmp, width, height);
      ghost var s1 := r.Current();
      rs, ok := PlaceRooms(tmp, room_num, attempts);
      GeneratedFrom(s0, width, height, room_num, attempts, s1, tmp, true, ok);
      if !ok {
        return;
      }
      ghost var before := sections;
      AddLeaves(tmp);
      RoomsInLeaves(rs, tmp, before, sections, room_num, width, height);
    }

    /** The end of `createRooms`: the leaves join the registry after the split sections. */
    method AddLeaves(leaves: seq<Section>)
      requires Growing(sections, leaves, width, height)
      modifies this`sections
      ensures sections == old(sections) + leaves && RegistryTree(sections, width, height)
    {
      LeavesJoinRegistry(sections, leaves, width, height);
      sections := sections + leaves;
    }

    /** The first loop of `createRooms`: `divide` the leaf list `room_num - 1` times,
        starting from the whole map. */
    method SplitMap(room_num: int) returns (tmp: seq<Section>, ok: bool)
      requires room_num >= 0 && sections == []
      modifies this`sections, r
      ensures (ok, sections, tmp, r.Current()) ==
        Splits(old(r.Current()), [], [Root(width, height)], width, height, if room_num == 0 then 0 else room_num - 1)
      ensures ok ==> Growing(sections, tmp, width, height)
      ensures ok ==> |tmp| == (if room_num == 0 then 1 else room_num) && |sections| == |tmp| - 1
    {
      ok := false;
      tmp := [Root(width, height)];
      ghost var n := if room_num == 0 then 0 else room_num - 1;
      var i := 0;
      while i < room_num - 1
        invariant 0 <= i && |tmp| == i + 1 && |sections| == i
        invariant i <= n
        invariant Growing(sections, tmp, width, height)
        invariant Splits(old(r.Current()), [], [Root(width, height)], width, height, n) ==
          Splits(r.Current(), sections, tmp, width, height, n - i)
      {
        var cut;
        tmp, cut := CutLargest(tmp);
        if !cut {
          return;
        }
        i := i + 1;
      }
      ok := true;
    }

    /** One round of the first loop of `createRooms`: `divide` the leaf list. The round
        stops the loop before the draw when the cut of the largest leaf cannot be drawn,
        and after it when a child leaves the grid. */
    method CutLargest(leaves: seq<Section>) returns (leaves': seq<Section>, ok: bool)
      requires leaves != [] && Growing(sections, leaves, width, height)
      modifies this`sections, r
      ensures (ok, sections, leaves', r.Current()) == Cut(old(r.Current()), old(sections), leaves, width, height)
      ensures ok ==> Growing(sections, leaves', width, height)
    {
      var sorted := SortByArea(leaves);
      if !CutDrawable(SplitSpan(sorted[0])) {
        return leaves, false;
      }
      ghost var before := sections;
      leaves' := Divide(leaves);
      ghost var d := NextIntOf(Output(r.Current()), MIN + 3, SplitSpan(sorted[0]) - (MIN + 3));
      ok := SectionFits(leaves'[|leaves'| - 2], width, height) && SectionFits(leaves'[|leaves'| - 1], width, height);
      if ok {
        CutKeepsLeaves(before, leaves, leaves', d, width, height);
      }
    }

    /** The second loop of `createRooms`: a room in each of the first `n` leaves. */
    method PlaceRooms(leaves: seq<Section>, n: int, attempts: nat) returns (rs: seq<Room>, ok: bool)
      requires 0 <= n <= |leaves| && forall k :: 0 <= k < |leaves| ==> SectionFits(leaves[k], width, height)
      modifies r
      ensures (ok, r.Current()) == Placement(old(r.Current()), leaves, 0, n, attempts)
      ensures ok ==> |rs| == n && RoomsFit(rs, width, height)
      ensures ok ==> forall k :: 0 <= k < n ==> rs[k].section == leaves[k]
    {
      rs, ok := [], false;
      var j := 0;
      while j < n
        invariant 0 <= j <= n && |rs| == j
        invariant forall k :: 0 <= k < j ==> Placed(rs[k]) && rs[k].section == leaves[k]
        invariant Placement(old(r.Current()), leaves, 0, n, attempts) == Placement(r.Current(), leaves, j, n, attempts)
      {
        RoomDrawPlaced(r.Current(), leaves[j], attempts);
        var room, placed := CreateRoomInFitTo(leaves[j], attempts);
        if !placed {
          return;
        }
        rs := rs + [room];
        j := j + 1;
      }
      ok := true;
    }

    /** The constructor after `createRooms`: carve every room, push and paint the door
        corridors, join the siblings (reading the mesh as it then is), paint every corridor
        again and clear the temporary marks. */
    method Generate()
      requires Valid() && coves == [] && forall k :: 0 <= k < mesh.Length ==> mesh[k] == BLANK
      requires RoomsFit(rooms, width, height) && SectionsFit(sections, width, height)
      modifies mesh, this`coves
      ensures (mesh[..], coves) == Render(width, height, rooms, sections)
    {
      assert mesh[..] == Blank(width, height);
      PutRooms();
      ghost var m1 := mesh[..];
      PushDoorCoves();
      ghost var c1 := coves;
      AllDoorCovesFit(rooms, width, height);
      PutCoves();
      ghost var m2 := mesh[..];
      assert m2 == PaintAll(m1, width, c1);
      MakeCoves(m2);
      ghost var c2 := coves;
      AllJoinsFit(m2, width, height, sections, |sections|);
      PutCoves();
      ghost var m3 := mesh[..];
      assert m3 == PaintAll(m2, width, c2);
      DeleteTempCove();
      RenderSteps(width, height, rooms, sections, m1, c1, m2, c2, m3);
    }

    /** The first loop of the constructor: `putRoom` and `putTempCove` for every room. */
    method PutRooms()
      requires Valid() && RoomsFit(rooms, width, height)
      modifies mesh
      ensures mesh[..] == CarveRooms(old(mesh[..]), width, height, rooms)
    {
      var k := 0;
      while k < |rooms|
        invariant 0 <= k <= |rooms|
        invariant mesh[..] == CarveRooms(old(mesh[..]), width, height, rooms[..k])
      {
        PutRoom(rooms[k]);
        PutTempCove(rooms[k]);
        assert rooms[..k + 1][..k] == rooms[..k];
        k := k + 1;
      }
      assert rooms[..k] == rooms;
    }

    /** The second loop of the constructor: push the corridor of every door, room by room,
        in the order left, right, top, bottom. */
    method PushDoorCoves()
      modifies this`coves
      ensures coves == old(coves) + AllDoorCoves(rooms)
    {
      var k := 0;
      while k < |rooms|
        invariant 0 <= k <= |rooms|
        invariant coves == old(coves) + AllDoorCoves(rooms[..k])
      {
        PushRoomCoves(rooms[k]);
        assert rooms[..k + 1][..k] == rooms[..k];
        AppendTwice(old(coves), AllDoorCoves(rooms[..k]), DoorCoves(rooms[k]));
        k := k + 1;
      }
      assert rooms[..k] == rooms;
    }

    /** One round of the second loop: the corridor of each door of `room`. */
    method PushRoomCoves(room: Room)
      modifies this`coves
      ensures coves == old(coves) + DoorCoves(room)
    {
      if room.HasDoor(FACE_LEFT) {
        coves := coves + [NewCove(room.left, room.DoorPos(FACE_LEFT), DIRECTION_H, room.section.left - room.left)];
      }
      if room.HasDoor(FACE_RIGHT) {
        coves := coves + [NewCove(room.Right(), room.DoorPos(FACE_RIGHT), DIRECTION_H, room.section.Right() - room.Right())];
      }
      if room.HasDoor(FACE_TOP) {
        coves := coves + [NewCove(room.DoorPos(FACE_TOP), room.section.top, DIRECTION_V, room.top - room.section.top)];
      }
      if room.HasDoor(FACE_BOTTOM) {
        coves := coves + [NewCove(room.DoorPos(FACE_BOTTOM), room.Bottom(), DIRECTION_V, room.section.Bottom() - room.Bottom())];
      }
    }

    /** A `putCove` loop of the constructor: paint every corridor pushed so far. */
    method PutCoves()
      requires Valid() && CovesFit(coves, width, height)
      modifies mesh
      ensures mesh[..] == PaintAll(old(mesh[..]), width, coves)
    {
      var k := 0;
      while k < |coves|
        invariant 0 <= k <= |coves|
        invariant mesh[..] == PaintAll(old(mesh[..]), width, coves[..k])
      {
        PutCove(coves[k]);
        assert coves[..k + 1][..k] == coves[..k];
        k := k + 1;
      }
      assert coves[..k] == coves;
    }

    /** The nested loop of the constructor: `makeCove` for every ordered pair of registered
        sections. */
    method MakeCoves(ghost m: seq<int>)
      requires Valid() && Shows(m) && JoinsReady(m, width, height, sections)
      modifies this`coves
      ensures coves == old(coves) + AllJoins(m, width, height, sections, |sections|)
    {
      var i := 0;
      while i < |sections|
        invariant 0 <= i <= |sections|
        invariant coves == old(coves) + AllJoins(m, width, height, sections, i)
      {
        MakeRow(i, m);
        AllJoinsNext(old(coves), m, width, height, sections, i);
        i := i + 1;
      }
    }

    /** One round of the outer loop: `makeCove(sections[i], section2)` for every section2. */
    method MakeRow(i: int, ghost m: seq<int>)
      requires Valid() && Shows(m) && JoinsReady(m, width, height, sections) && 0 <= i < |sections|
      modifies this`coves
      ensures coves == old(coves) + RowJoins(m, width, height, sections, i, |sections|)
    {
      var j := 0;
      while j < |sections|
        invariant 0 <= j <= |sections|
        invariant coves == old(coves) + RowJoins(m, width, height, sections, i, j)
      {
        MakeCove(i, j, m);
        RowJoinsNext(old(coves), m, width, height, sections, i, j);
        j := j + 1;
      }
    }
  }

  // ---------------------------------------------------------------------------
  // What the phases of the constructor draw, as functions of the generator's state
  // ---------------------------------------------------------------------------

  /** Two drawn values at least MIN apart. */
  predicate Apart(a: int, b: int)
  {
    Abs(a - b) >= MIN
  }

  /** The retry loop of `createRoomInFitTo` from state `s`: the last pair drawn in [lo, hi]
      and the state after it. It stops at the first pair MIN apart, or after `attempts`
      pairs; with no attempt left nothing is drawn and the pair is (0, 0). */
  function Draws(s: State, lo: int, hi: int, attempts: nat): (int, int, State)
    requires lo <= hi
    decreases attempts
  {
    if attempts == 0 then (0, 0, s)
    else
      var s1 := Step(s);
      var a := NextIntOf(Output(s1), lo, hi);
      var s2 := Step(s1);
      var b := NextIntOf(Output(s2), lo, hi);
      if Apart(a, b) || attempts == 1 then (a, b, s2) else Draws(s2, lo, hi, attempts - 1)
  }

  /** Every pair the loop draws lies in [lo, hi]. */
  lemma {:induction false} DrawsInRange(s: State, lo: int, hi: int, attempts: nat)
    requires lo <= hi && attempts > 0
    ensures var d := Draws(s, lo, hi, attempts); lo <= d.0 <= hi && lo <= d.1 <= hi
    decreases attempts
  {
    var s2 := Step(Step(s));
    var a, b := NextIntOf(Output(Step(s)), lo, hi), NextIntOf(Output(s2), lo, hi);
    if !(Apart(a, b) || attempts == 1) {
      DrawsInRange(s2, lo, hi, attempts - 1);
    }
  }

  /** An interval shorter than MIN holds no pair MIN apart, so the loop runs out of
      attempts; and with no attempt at all it fails too. */
  lemma DrawsFailNarrow(s: State, lo: int, hi: int, attempts: nat)
    requires lo <= hi && (hi - lo < MIN || attempts == 0)
    ensures var d := Draws(s, lo, hi, attempts); !Apart(d.0, d.1)
  {
    if attempts > 0 {
      DrawsInRange(s, lo, hi, attempts);
    }
  }

  /** One door draw of `createRoomInFitTo`: a position in [lo, hi] and one Step when the
      mask has the bit of `face`, otherwise no door and no Step. */
  function DoorDraw(s: State, mask: Face, face: Face, lo: int, hi: int): (d: (int, State))
    requires lo <= hi
    ensures mask & face != 0 ==> lo <= d.0 <= hi
    ensures mask & face == 0 ==> d.0 == NO_DOOR && d.1 == s
  {
    if mask & face != 0 then (NextIntOf(Output(Step(s)), lo, hi), Step(s)) else (NO_DOOR, s)
  }

  /** `createRoomInFitTo(section)` from state `s`: whether it places a room, the room, and
      the state after its draws. A failed call returns the empty room of the section. */
  function RoomDraw(s: State, section: Section, attempts: nat): (bool, Room, State)
  {
    if section.width <= 1 || section.height <= 1 then (false, NoRoom(section), s)
    else RowsDraw(section, Draws(s, section.left + 1, section.Right() - 1, attempts), attempts)
  }

  /** The room a failed `createRoomInFitTo` returns. */
  function NoRoom(section: Section): Room
  {
    Room(0, 0, 0, 0, section, [NO_DOOR, NO_DOOR, NO_DOOR, NO_DOOR])
  }

  /** `createRoomInFitTo` once the columns `dx` are drawn: the rows, then the doors. */
  function RowsDraw(section: Section, dx: (int, int, State), attempts: nat): (bool, Room, State)
    requires section.height > 1
  {
    if !Apart(dx.0, dx.1) then (false, NoRoom(section), dx.2)
    else
      var dy := Draws(dx.2, section.top + 1, section.Bottom() - 1, attempts);
      if !Apart(dy.0, dy.1) then (false, NoRoom(section), dy.2)
      else
        var x, y := Min(dx.0, dx.1), Min(dy.0, dy.1);
        var b := DoorsDraw(dy.2, section, x, Max(dx.0, dx.1) - x, y, Max(dy.0, dy.1) - y);
        (true, b.0, b.1)
  }

  /** The builder part of `createRoomInFitTo` once the room's columns [x, x + w) and rows
      [y, y + h) are drawn: the door draws on the right, left, bottom and top faces, in
      that order, and the room they give. */
  function DoorsDraw(s: State, section: Section, x: int, w: int, y: int, h: int): (Room, State)
    requires w >= MIN && h >= MIN
  {
    var right := DoorDraw(s, section.face, FACE_RIGHT, y + 1, y + h - 2);
    var left := DoorDraw(right.1, section.face, FACE_LEFT, y + 1, y + h - 2);
    var bottom := DoorDraw(left.1, section.face, FACE_BOTTOM, x + 1, x + w - 2);
    var top := DoorDraw(bottom.1, section.face, FACE_TOP, x + 1, x + w - 2);
    (Room(y, x, w, h, section, [top.0, left.0, right.0, bottom.0]), top.1)
  }

  /** The four door draws of DoorsDraw, named one by one. */
  lemma DoorsDrawIs(s: State, section: Section, x: int, w: int, y: int, h: int)
    requires w >= MIN && h >= MIN
    ensures var right := DoorDraw(s, section.face, FACE_RIGHT, y + 1, y + h - 2);
      var left := DoorDraw(right.1, section.face, FACE_LEFT, y + 1, y + h - 2);
      var bottom := DoorDraw(left.1, section.face, FACE_BOTTOM, x + 1, x + w - 2);
      var top := DoorDraw(bottom.1, section.face, FACE_TOP, x + 1, x + w - 2);
      DoorsDraw(s, section, x, w, y, h) == (Room(y, x, w, h, section, [top.0, left.0, right.0, bottom.0]), top.1)
  {
  }

  /** Filling the empty slots in the order right, left, bottom, top. */
  lemma SlotsFilled(top: int, left: int, right: int, bottom: int)
    ensures [NO_DOOR, NO_DOOR, NO_DOOR, NO_DOOR][2 := right][1 := left][3 := bottom][0 := top] == [top, left, right, bottom]
  {
  }

  /** The doors drawn for a room inside the section's margin are where `Placed` asks. */
  lemma DoorsDrawPlaced(s: State, section: Section, x: int, w: int, y: int, h: int)
    requires w >= MIN && h >= MIN && 0 <= section.left && 0 <= section.top
    requires section.left + 1 <= x && x + w <= section.Right() - 1
    requires section.top + 1 <= y && y + h <= section.Bottom() - 1
    ensures var room := DoorsDraw(s, section, x, w, y, h).0; Placed(room) && room.section == section
  {
    var room := DoorsDraw(s, section, x, w, y, h).0;
    assert DoorOn(room, FACE_TOP) && DoorOn(room, FACE_LEFT);
    assert DoorOn(room, FACE_RIGHT) && DoorOn(room, FACE_BOTTOM);
  }

  /** A placed room lies inside its section's margin and has a door exactly on the faces
      whose bits the section has, strictly between the corners of that wall. */
  lemma RoomDrawPlaced(s: State, section: Section, attempts: nat)
    requires 0 <= section.left && 0 <= section.top
    ensures var rd := RoomDraw(s, section, attempts); rd.0 ==> Placed(rd.1) && rd.1.section == section
  {
    if section.width > 1 && section.height > 1 && attempts > 0 {
      var dx := Draws(s, section.left + 1, section.Right() - 1, attempts);
      DrawsInRange(s, section.left + 1, section.Right() - 1, attempts);
      RowsDrawPlaced(section, dx, attempts);
    }
  }

  /** The two ways `createRoomInFitTo` gives up in a section more than one cell wide and
      high, in terms of its column draws `dx` and row draws `dy`. */
  lemma RoomDrawStops(s: State, section: Section, attempts: nat, dx: (int, int, State), dy: (int, int, State))
    requires section.width > 1 && section.height > 1
    requires dx == Draws(s, section.left + 1, section.Right() - 1, attempts)
    requires dy == Draws(dx.2, section.top + 1, section.Bottom() - 1, attempts)
    ensures !Apart(dx.0, dx.1) ==> RoomDraw(s, section, attempts) == (false, NoRoom(section), dx.2)
    ensures Apart(dx.0, dx.1) && !Apart(dy.0, dy.1) ==> RoomDraw(s, section, attempts) == (false, NoRoom(section), dy.2)
  {
    assert RoomDraw(s, section, attempts) == RowsDraw(section, dx, attempts);
  }

  /** The room `createRoomInFitTo` places when both draws succeed. */
  lemma RoomDrawFrom(s: State, section: Section, attempts: nat, dx: (int, int, State), dy: (int, int, State))
    requires section.width > 1 && section.height > 1
    requires dx == Draws(s, section.left + 1, section.Right() - 1, attempts)
    requires dy == Draws(dx.2, section.top + 1, section.Bottom() - 1, attempts)
    ensures Apart(dx.0, dx.1) && Apart(dy.0, dy.1) ==>
      var x, y := Min(dx.0, dx.1), Min(dy.0, dy.1);
      var b := DoorsDraw(dy.2, section, x, Max(dx.0, dx.1) - x, y, Max(dy.0, dy.1) - y);
      RoomDraw(s, section, attempts) == (true, b.0, b.1)
  {
    assert RoomDraw(s, section, attempts) == RowsDraw(section, dx, attempts);
  }

  lemma RowsDrawPlaced(section: Section, dx: (int, int, State), attempts: nat)
    requires section.height > 1 && 0 <= section.left && 0 <= section.top
    requires section.left + 1 <= dx.0 <= section.Right() - 1 && section.left + 1 <= dx.1 <= section.Right() - 1
    ensures var rd := RowsDraw(section, dx, attempts); rd.0 ==> Placed(rd.1) && rd.1.section == section
  {
    var rd := RowsDraw(section, dx, attempts);
    var dy := Draws(dx.2, section.top + 1, section.Bottom() - 1, attempts);
    if Apart(dx.0, dx.1) && Apart(dy.0, dy.1) {
      var x, y := Min(dx.0, dx.1), Min(dy.0, dy.1);
      var w, h := Max(dx.0, dx.1) - x, Max(dy.0, dy.1) - y;
      assert rd.1 == DoorsDraw(dy.2, section, x, w, y, h).0;
      DrawsInRange(dx.2, section.top + 1, section.Bottom() - 1, attempts);
      DoorsDrawPlaced(dy.2, section, x, w, y, h);
    }
  }

  /** A section narrower or lower than MIN + 2 has no room for a room MIN wide with a cell
      of margin on each side, and no room is placed within zero attempts. */
  lemma RoomDrawFailsNarrow(s: State, section: Section, attempts: nat)
    requires section.width < MIN + 2 || section.height < MIN + 2 || attempts == 0
    ensures !RoomDraw(s, section, attempts).0
  {
    if section.width > 1 && section.height > 1 {
      var dx := Draws(s, section.left + 1, section.Right() - 1, attempts);
      if section.width < MIN + 2 || attempts == 0 {
        DrawsFailNarrow(s, section.left + 1, section.Right() - 1, attempts);
      } else if Apart(dx.0, dx.1) {
        DrawsFailNarrow(dx.2, section.top + 1, section.Bottom() - 1, attempts);
      }
    }
  }

  /** The second loop of `createRooms` from leaf `j` on: whether every leaf up to `n` gets
      its room, and the state afterwards. It stops at the first leaf that gets none. */
  function Placement(s: State, leaves: seq<Section>, j: nat, n: nat, attempts: nat): (bool, State)
    requires j <= n <= |leaves|
    decreases n - j
  {
    if j == n then (true, s)
    else
      var rd := RoomDraw(s, leaves[j], attempts);
      if !rd.0 then (false, rd.2) else Placement(rd.2, leaves, j + 1, n, attempts)
  }

  /** The loop fails as soon as one of its leaves is too small for a room. */
  lemma {:induction false} PlacementFailsNarrow(s: State, leaves: seq<Section>, j: nat, n: nat, attempts: nat, k: nat)
    requires j <= k < n <= |leaves| && (leaves[k].width < MIN + 2 || leaves[k].height < MIN + 2)
    ensures !Placement(s, leaves, j, n, attempts).0
    decreases n - j
  {
    var rd := RoomDraw(s, leaves[j], attempts);
    if k == j {
      RoomDrawFailsNarrow(s, leaves[j], attempts);
    } else if rd.0 {
      PlacementFailsNarrow(rd.2, leaves, j + 1, n, attempts, k);
    }
  }

  /** One round of the first loop of `createRooms` from state `s`, the registry `sections`
      and the leaf list `leaves`: whether the loop goes on, and the registry, the leaves and
      the state afterwards. When the cut of the largest leaf cannot be drawn nothing is drawn
      or changed; otherwise the cut is drawn and registered, and the loop stops when a child
      leaves the grid. */
  function Cut(s: State, sections: seq<Section>, leaves: seq<Section>, w: Positive, h: int)
    : (c: (bool, seq<Section>, seq<Section>, State))
    requires leaves != []
    ensures c.2 != []
    ensures c.0 ==> |c.1| == |sections| + 1 && |c.2| == |leaves| + 1
  {
    var sorted := SortByArea(leaves);
    var p := sorted[0];
    if !CutDrawable(SplitSpan(p)) then (false, sections, leaves, s)
    else
      var s' := Step(s);
      var c := Split(p, NextIntOf(Output(s'), MIN + 3, SplitSpan(p) - (MIN + 3)), |sections|);
      (SectionFits(c.0, w, h) && SectionFits(c.1, w, h), sections + [p], sorted[1..] + [c.0, c.1], s')
  }

  /** The first loop of `createRooms` with `n` rounds to go: the rounds until one stops it. */
  function Splits(s: State, sections: seq<Section>, leaves: seq<Section>, w: Positive, h: int, n: nat)
    : (bool, seq<Section>, seq<Section>, State)
    requires leaves != []
    decreases n
  {
    if n == 0 then (true, sections, leaves, s)
    else
      var c := Cut(s, sections, leaves, w, h);
      if !c.0 then c else Splits(c.3, c.1, c.2, w, h, n - 1)
  }

  /** Every completed round registers one section and turns one leaf into two. */
  lemma {:induction false} SplitsCount(s: State, sections: seq<Section>, leaves: seq<Section>, w: Positive, h: int, n: nat)
    requires leaves != []
    ensures var res := Splits(s, sections, leaves, w, h, n);
      res.0 ==> |res.1| == |sections| + n && |res.2| == |leaves| + n
    decreases n
  {
    if n > 0 {
      var c := Cut(s, sections, leaves, w, h);
      if c.0 {
        SplitsCount(c.3, c.1, c.2, w, h, n - 1);
      }
    }
  }

  /** `createRooms(room_num)` from state `s` on a `w` by `h` map: whether every split and
      every room succeeds. */
  function Generated(s: State, w: Positive, h: Positive, room_num: nat, attempts: nat): bool
  {
    var n := if room_num == 0 then 0 else room_num - 1;
    var sp := Splits(s, [], [Root(w, h)], w, h, n);
    SplitsCount(s, [], [Root(w, h)], w, h, n);
    sp.0 && (room_num <= |sp.2| && Placement(sp.3, sp.2, 0, room_num, attempts).0)
  }

  /** Generated in terms of what the two loops of `createRooms` return. */
  lemma GeneratedFrom(s: State, w: Positive, h: Positive, room_num: nat, attempts: nat,
                      s1: State, leaves: seq<Section>, split: bool, placed: bool)
    requires var sp := Splits(s, [], [Root(w, h)], w, h, if room_num == 0 then 0 else room_num - 1);
      split == sp.0 &&
      (split ==> leaves == sp.2 && s1 == sp.3 && room_num <= |leaves| &&
                 placed == Placement(s1, leaves, 0, room_num, attempts).0)
    ensures Generated(s, w, h, room_num, attempts) == (split && placed)
  {
  }

  /** A dungeon of no rooms needs no cut and no room, so `createRooms` always completes. */
  lemma NoRoomsGenerated(s: State, w: Positive, h: Positive, attempts: nat)
    ensures Generated(s, w, h, 0, attempts)
  {
  }

  /** The draw of a cut across a side of length `span` is defined: the source's range
      [MIN + 3, span - (MIN + 3)] has a nonzero size (a zero size gives NaN). */
  predicate CutDrawable(span: int)
  {
    span - (MIN + 3) + 1 - (MIN + 3) != 0
  }

  /** `s` is a leaf of the partition built so far: it lies in the grid and inside the
      registered section it names as its parent. */
  predicate LeafOf(sections: seq<Section>, s: Section, w: Positive, h: int)
  {
    SectionFits(s, w, h) && 0 <= s.parent < |sections| && sections[s.parent].Contains(s)
  }

  /** The state of `createRooms` between two rounds of `divide`: nothing registered and the
      whole map as the only leaf, or a containment tree whose leaves all hang off it. */
  predicate Growing(sections: seq<Section>, leaves: seq<Section>, w: Positive, h: int)
  {
    if sections == [] then leaves == [Root(w, h)]
    else RegistryTree(sections, w, h) && forall k :: 0 <= k < |leaves| ==> LeafOf(sections, leaves[k], w, h)
  }

  /** Every leaf of a growing partition lies in the grid. */
  lemma GrowingFits(sections: seq<Section>, leaves: seq<Section>, w: Positive, h: Positive)
    requires Growing(sections, leaves, w, h)
    ensures forall k :: 0 <= k < |leaves| ==> SectionFits(leaves[k], w, h)
  {
    if sections != [] {
      forall k | 0 <= k < |leaves| ensures SectionFits(leaves[k], w, h) {
        assert LeafOf(sections, leaves[k], w, h);
      }
    }
  }

  /** The sort only reorders: every section of its output is one of its input. */
  lemma SortedFromLeaves(leaves: seq<Section>)
    ensures forall k :: 0 <= k < |SortByArea(leaves)| ==> SortByArea(leaves)[k] in leaves
  {
    var sorted := SortByArea(leaves);
    SortByAreaSorted(leaves);
    forall k | 0 <= k < |sorted| ensures sorted[k] in leaves {
      assert sorted[k] in multiset(leaves);
    }
  }

  /** Children that lie in the grid lie inside the section they were cut from: a cut at
      offset `d` leaves a child of extent `d` and one of extent `span - d + 1`, so both
      fitting means 1 <= d <= span. */
  lemma ChildrenInside(p: Section, d: int, parent: int, w: Positive, h: int)
    requires var c := Split(p, d, parent); SectionFits(c.0, w, h) && SectionFits(c.1, w, h)
    ensures var c := Split(p, d, parent);
      p.Contains(c.0) && p.Contains(c.1) && c.0.parent == parent && c.1.parent == parent
  {
  }

  /** One round of `divide` keeps the tree: the cut section joins the registry, and its two
      children, when they lie in the grid, lie inside it and name it as their parent. */
  lemma CutKeepsLeaves(before: seq<Section>, leaves: seq<Section>, after: seq<Section>, d: int, w: Positive, h: Positive)
    requires leaves != [] && Growing(before, leaves, w, h)
    requires var sorted := SortByArea(leaves); var c := Split(sorted[0], d, |before|);
      after == sorted[1..] + [c.0, c.1]
    requires SectionFits(after[|after| - 2], w, h) && SectionFits(after[|after| - 1], w, h)
    ensures Growing(before + [SortByArea(leaves)[0]], after, w, h)
  {
    var sorted := SortByArea(leaves);
    SortedFromLeaves(leaves);
    var p := sorted[0];
    var sections := before + [p];
    ChildrenInside(p, d, |before|, w, h);
    if before != [] {
      var j :| 0 <= j < |leaves| && leaves[j] == p;
      assert LeafOf(before, leaves[j], w, h);
    }
    assert RegistryTree(sections, w, h) by {
      forall k | 0 < k < |sections|
        ensures 0 <= sections[k].parent < k && sections[sections[k].parent].Contains(sections[k])
      {
        if k < |before| {
          assert sections[k] == before[k];
        }
      }
    }
    forall k | 0 <= k < |after| ensures LeafOf(sections, after[k], w, h) {
      if k < |after| - 2 {
        assert after[k] == sorted[k + 1];
        var j :| 0 <= j < |leaves| && leaves[j] == after[k];
        assert LeafOf(before, leaves[j], w, h);
      }
    }
  }

  /** The k-th room lies in the k-th of the leaves that end the registry. */
  lemma RoomsInLeaves(rs: seq<Room>, leaves: seq<Section>, before: seq<Section>, sections: seq<Section>,
                      room_num: int, w: Positive, h: int)
    requires sections == before + leaves && RegistryTree(sections, w, h)
    requires |rs| == room_num && RoomsFit(rs, w, h)
    requires |leaves| == (if room_num == 0 then 1 else room_num) && |before| == |leaves| - 1
    requires forall k :: 0 <= k < room_num ==> rs[k].section == leaves[k]
    ensures Stocked(rs, sections, w, h, room_num)
  {
  }

  /** Appending the leaves to the registry keeps the tree. */
  lemma LeavesJoinRegistry(before: seq<Section>, leaves: seq<Section>, w: Positive, h: Positive)
    requires Growing(before, leaves, w, h)
    ensures RegistryTree(before + leaves, w, h)
  {
    var sections := before + leaves;
    forall k | 0 < k < |sections|
      ensures 0 <= sections[k].parent < k && sections[sections[k].parent].Contains(sections[k])
    {
      if k >= |before| {
        assert LeafOf(before, leaves[k - |before|], w, h);
      }
    }
  }
}
