/** Pipeline: what the constructor of Rogue computes, phase by phase, as functions of the
    rooms and the section registry: the carving of every room, the corridors out of the
    doors, the corridors between siblings, and the final clean-up. */
module Pipeline {
  import opened Sections
  import opened Rooms
  import opened Coves
  import opened Mesh

  /** Every room is placed and its section lies in the grid. */
  predicate RoomsFit(rooms: seq<Room>, w: Positive, h: int)
  {
    forall k :: 0 <= k < |rooms| ==> Placed(rooms[k]) && SectionFits(rooms[k].section, w, h)
  }

  /** Appending in two steps is appending once. */
  lemma AppendTwice(a: seq<Cove>, b: seq<Cove>, c: seq<Cove>)
    ensures a + b + c == a + (b + c)
  {
  }

  /** Every registered section lies in the grid. */
  predicate SectionsFit(sections: seq<Section>, w: Positive, h: int)
  {
    forall k :: 0 <= k < |sections| ==> SectionFits(sections[k], w, h)
  }

  /** Every cell of every corridor lies in the grid. */
  ghost predicate CovesFit(cs: seq<Cove>, w: Positive, h: int)
  {
    forall k :: 0 <= k < |cs| ==> CoveFits(cs[k], w, h)
  }

  /** The whole section `parent` was split from is `Root(w, h)`: the map itself. */
  function Root(w: Positive, h: int): Section
  {
    Section(0, 0, w, h, FACE_NONE, -1)
  }

  /** The registry is a containment tree: entry 0 is the whole map, every later entry names
      an earlier one as its parent and lies inside it, and every entry lies in the grid.
      It does not say that the leaves cover the map; `Sections.SplitCovers` states that of
      one cut. */
  predicate RegistryTree(sections: seq<Section>, w: Positive, h: int)
  {
    sections != [] && sections[0] == Root(w, h) && SectionsFit(sections, w, h) &&
    forall k :: 0 < k < |sections| ==>
      0 <= sections[k].parent < k && sections[sections[k].parent].Contains(sections[k])
  }

  // ---------------------------------------------------------------------------
  // Phase 1: `putRoom` and `putTempCove` for every room
  // ---------------------------------------------------------------------------

  /** The mesh after `putRoom(room)` and `putTempCove(room)` for each room in turn. */
  function CarveRooms(m: seq<int>, w: Positive, h: int, rooms: seq<Room>): (r: seq<int>)
    requires Fits(m, w, h) && RoomsFit(rooms, w, h)
    ensures Fits(r, w, h) && (AllCodes(m) ==> AllCodes(r))
    ensures forall i :: 0 <= i < |r| && r[i] == COVE ==> m[i] == COVE
    decreases |rooms|
  {
    if rooms == [] then m
    else
      var last := rooms[|rooms| - 1];
      var before := CarveRooms(m, w, h, rooms[..|rooms| - 1]);
      TempCoves(Carve(before, w, last), w, h, last)
  }

  /** The carving of the last room survives the temporary marks: the marks never touch a
      cell of the room, so the last room's walls, floor and doors are in the mesh. */
  lemma {:induction false} LastRoomIntact(m: seq<int>, w: Positive, h: int, rooms: seq<Room>)
    requires Fits(m, w, h) && RoomsFit(rooms, w, h) && rooms != []
    ensures var r := CarveRooms(m, w, h, rooms); var last := rooms[|rooms| - 1];
      forall i :: 0 <= i < |r| && InRoom(last, Col(w, i), Row(w, i)) ==>
        r[i] == RoomCode(last, Col(w, i), Row(w, i))
  {
    var last := rooms[|rooms| - 1];
    var before := CarveRooms(m, w, h, rooms[..|rooms| - 1]);
    TempCovesShape(Carve(before, w, last), w, h, last);
  }

  // ---------------------------------------------------------------------------
  // Phase 2: the corridors out of the doors
  // ---------------------------------------------------------------------------

  /** The corridors the constructor pushes for the doors of all rooms, room by room. */
  function AllDoorCoves(rooms: seq<Room>): (cs: seq<Cove>)
    decreases |rooms|
  {
    if rooms == [] then [] else AllDoorCoves(rooms[..|rooms| - 1]) + DoorCoves(rooms[|rooms| - 1])
  }

  /** Every door corridor of placed rooms lies in the grid. */
  lemma {:induction false} AllDoorCovesFit(rooms: seq<Room>, w: Positive, h: int)
    requires RoomsFit(rooms, w, h)
    ensures CovesFit(AllDoorCoves(rooms), w, h)
  {
    if rooms != [] {
      var last := rooms[|rooms| - 1];
      AllDoorCovesFit(rooms[..|rooms| - 1], w, h);
      DoorCovesFit(last, w, h);
      MembersFit(DoorCoves(last), w, h);
      CovesFitAppend(AllDoorCoves(rooms[..|rooms| - 1]), DoorCoves(last), w, h);
    }
  }

  /** A room gets one corridor per door: the corridor list is as long as the number of doors. */
  lemma {:induction false} AllDoorCovesCount(rooms: seq<Room>)
    ensures |AllDoorCoves(rooms)| == DoorCount(rooms)
  {
    if rooms != [] {
      AllDoorCovesCount(rooms[..|rooms| - 1]);
    }
  }

  function Doors(room: Room): nat
  {
    (if room.HasDoor(FACE_LEFT) then 1 else 0) + (if room.HasDoor(FACE_RIGHT) then 1 else 0) +
    (if room.HasDoor(FACE_TOP) then 1 else 0) + (if room.HasDoor(FACE_BOTTOM) then 1 else 0)
  }

  function DoorCount(rooms: seq<Room>): nat
    decreases |rooms|
  {
    if rooms == [] then 0 else DoorCount(rooms[..|rooms| - 1]) + Doors(rooms[|rooms| - 1])
  }

  // ---------------------------------------------------------------------------
  // `putCove` for every corridor
  // ---------------------------------------------------------------------------

  /** Some corridor of `cs` covers (x, y). */
  predicate CoveredBy(cs: seq<Cove>, x: int, y: int)
  {
    exists c :: c in cs && c.Covers(x, y)
  }

  /** The mesh after `putCove(c)` for each corridor in turn. */
  function PaintAll(m: seq<int>, w: Positive, cs: seq<Cove>): (r: seq<int>)
    ensures |r| == |m| && (AllCodes(m) ==> AllCodes(r))
    decreases |cs|
  {
    if cs == [] then m else Paint(PaintAll(m, w, cs[..|cs| - 1]), w, cs[|cs| - 1])
  }

  /** Painting every corridor makes exactly the covered cells corridor and leaves every
      other cell as it was, whatever the order of the list. */
  lemma {:induction false} PaintAllCovered(m: seq<int>, w: Positive, cs: seq<Cove>)
    ensures forall i :: 0 <= i < |m| ==>
      PaintAll(m, w, cs)[i] == if CoveredBy(cs, Col(w, i), Row(w, i)) then COVE else m[i]
  {
    if cs != [] {
      var init := cs[..|cs| - 1];
      PaintAllCovered(m, w, init);
      assert cs == init + [cs[|cs| - 1]];
      forall i | 0 <= i < |m|
        ensures PaintAll(m, w, cs)[i] == if CoveredBy(cs, Col(w, i), Row(w, i)) then COVE else m[i]
      {
        var x, y := Col(w, i), Row(w, i);
        if CoveredBy(init, x, y) {
          var c :| c in init && c.Covers(x, y);
          assert c in cs;
        }
        if cs[|cs| - 1].Covers(x, y) {
          assert cs[|cs| - 1] in cs;
        }
        if CoveredBy(cs, x, y) {
          var c :| c in cs && c.Covers(x, y);
          if c != cs[|cs| - 1] {
            assert c in init;
          }
        }
      }
    }
  }

  /** Painting a list a second time changes nothing: the second `putCove` pass over the
      door corridors only adds the corridors pushed after the first. */
  lemma PaintAllTwice(m: seq<int>, w: Positive, cs: seq<Cove>, more: seq<Cove>)
    ensures PaintAll(PaintAll(m, w, cs), w, cs + more) == PaintAll(m, w, cs + more)
  {
    var once := PaintAll(m, w, cs);
    PaintAllCovered(m, w, cs);
    PaintAllCovered(once, w, cs + more);
    PaintAllCovered(m, w, cs + more);
    forall i | 0 <= i < |m|
      ensures PaintAll(once, w, cs + more)[i] == PaintAll(m, w, cs + more)[i]
    {
      var x, y := Col(w, i), Row(w, i);
      if CoveredBy(cs, x, y) {
        var c :| c in cs && c.Covers(x, y);
        assert c in cs + more;
      }
    }
  }

  // ---------------------------------------------------------------------------
  // Phase 3: `makeCove` for every ordered pair of registered sections
  // ---------------------------------------------------------------------------

  /** Registry entries `i` and `j` are distinct sections with the same (non-null) parent. */
  predicate Siblings(sections: seq<Section>, i: int, j: int)
    requires 0 <= i < |sections| && 0 <= j < |sections|
  {
    sections[i].parent != -1 && sections[j].parent != -1 && i != j &&
    sections[i].parent == sections[j].parent
  }

  /** What `makeCove(sections[i], sections[j])` pushes. */
  function PairJoins(m: seq<int>, w: Positive, h: int, sections: seq<Section>, i: int, j: int): seq<Cove>
    requires Fits(m, w, h) && 0 <= i < |sections| && 0 <= j < |sections| && SectionFits(sections[i], w, h)
  {
    if Siblings(sections, i, j) then SiblingJoins(m, w, h, sections[i]) else []
  }

  /** The scans can read the mesh: it has the map's size and every section lies in the grid. */
  predicate JoinsReady(m: seq<int>, w: Positive, h: int, sections: seq<Section>)
  {
    Fits(m, w, h) && SectionsFit(sections, w, h)
  }

  /** What `makeCove(sections[i], sections[j])` pushes for j = 0 .. n-1. */
  function RowJoins(m: seq<int>, w: Positive, h: int, sections: seq<Section>, i: int, n: int): seq<Cove>
    requires JoinsReady(m, w, h, sections) && 0 <= i < |sections| && 0 <= n <= |sections|
    decreases n
  {
    if n == 0 then [] else RowJoins(m, w, h, sections, i, n - 1) + PairJoins(m, w, h, sections, i, n - 1)
  }

  /** What the nested loop over the registry pushes for section1 = 0 .. n-1. */
  function AllJoins(m: seq<int>, w: Positive, h: int, sections: seq<Section>, n: int): seq<Cove>
    requires JoinsReady(m, w, h, sections) && 0 <= n <= |sections|
    decreases n
  {
    if n == 0 then [] else AllJoins(m, w, h, sections, n - 1) + RowJoins(m, w, h, sections, n - 1, |sections|)
  }

  /** One more round of the outer loop appends the joins of one more section1. */
  lemma AllJoinsNext(pre: seq<Cove>, m: seq<int>, w: Positive, h: int, sections: seq<Section>, i: int)
    requires JoinsReady(m, w, h, sections) && 0 <= i < |sections|
    ensures pre + AllJoins(m, w, h, sections, i) + RowJoins(m, w, h, sections, i, |sections|) ==
            pre + AllJoins(m, w, h, sections, i + 1)
  {
    AppendTwice(pre, AllJoins(m, w, h, sections, i), RowJoins(m, w, h, sections, i, |sections|));
  }

  /** One more round of the inner loop appends what one more `makeCove` pushes. */
  lemma RowJoinsNext(pre: seq<Cove>, m: seq<int>, w: Positive, h: int, sections: seq<Section>, i: int, j: int)
    requires JoinsReady(m, w, h, sections) && 0 <= i < |sections| && 0 <= j < |sections|
    ensures pre + RowJoins(m, w, h, sections, i, j) + PairJoins(m, w, h, sections, i, j) ==
            pre + RowJoins(m, w, h, sections, i, j + 1)
  {
    AppendTwice(pre, RowJoins(m, w, h, sections, i, j), PairJoins(m, w, h, sections, i, j));
  }

  lemma {:induction false} RowJoinsFit(m: seq<int>, w: Positive, h: int, sections: seq<Section>, i: int, n: int)
    requires JoinsReady(m, w, h, sections) && 0 <= i < |sections| && 0 <= n <= |sections|
    ensures CovesFit(RowJoins(m, w, h, sections, i, n), w, h)
  {
    if n > 0 {
      RowJoinsFit(m, w, h, sections, i, n - 1);
      var a := sections[i];
      var down := Joins(m, w, h, Line(true, a.left), a.top, a.Bottom(), -1);
      var along := Joins(m, w, h, Line(false, a.top), a.left, a.Right(), -1);
      JoinsFit(m, w, h, Line(true, a.left), a.top, a.Bottom());
      JoinsFit(m, w, h, Line(false, a.top), a.left, a.Right());
      MembersFit(down, w, h);
      MembersFit(along, w, h);
      CovesFitAppend(down, along, w, h);
      CovesFitAppend(RowJoins(m, w, h, sections, i, n - 1), PairJoins(m, w, h, sections, i, n - 1), w, h);
    }
  }

  lemma MembersFit(cs: seq<Cove>, w: Positive, h: int)
    requires forall c :: c in cs ==> CoveFits(c, w, h)
    ensures CovesFit(cs, w, h)
  {
    forall k | 0 <= k < |cs| ensures CoveFits(cs[k], w, h) {
      assert cs[k] in cs;
    }
  }

  lemma CovesFitAppend(a: seq<Cove>, b: seq<Cove>, w: Positive, h: int)
    requires CovesFit(a, w, h) && CovesFit(b, w, h)
    ensures CovesFit(a + b, w, h)
  {
    forall k | 0 <= k < |a + b| ensures CoveFits((a + b)[k], w, h) {
      if k >= |a| {
        assert (a + b)[k] == b[k - |a|];
      }
    }
  }

  /** Every corridor between siblings lies in the grid, so the second `putCove` pass
      writes inside the mesh. */
  lemma {:induction false} AllJoinsFit(m: seq<int>, w: Positive, h: int, sections: seq<Section>, n: int)
    requires JoinsReady(m, w, h, sections) && 0 <= n <= |sections|
    ensures CovesFit(AllJoins(m, w, h, sections, n), w, h)
  {
    if n > 0 {
      AllJoinsFit(m, w, h, sections, n - 1);
      RowJoinsFit(m, w, h, sections, n - 1, |sections|);
      CovesFitAppend(AllJoins(m, w, h, sections, n - 1), RowJoins(m, w, h, sections, n - 1, |sections|), w, h);
    }
  }

  // ---------------------------------------------------------------------------
  // The whole constructor
  // ---------------------------------------------------------------------------

  /** The mesh of a fresh map: every cell blank. */
  function Blank(w: Positive, h: nat): (m: seq<int>)
    ensures Fits(m, w, h) && AllCodes(m)
    ensures forall i :: 0 <= i < |m| ==> m[i] == BLANK
  {
    MulMono(0, h, w);
    seq(w * h, _ => BLANK)
  }

  /** The mesh and the corridor list the constructor leaves once the rooms and the registry
      exist: carve every room and mark its temporary border and probes, push and paint the
      door corridors, push the joins between siblings (read off that mesh), paint every
      corridor again, and clear the temporary marks. */
  function Render(w: Positive, h: nat, rooms: seq<Room>, sections: seq<Section>): (res: (seq<int>, seq<Cove>))
    requires RoomsFit(rooms, w, h) && SectionsFit(sections, w, h)
    ensures Fits(res.0, w, h) && AllTiles(res.0)
    ensures AllDoorCoves(rooms) <= res.1
  {
    var m1 := CarveRooms(Blank(w, h), w, h, rooms);
    var c1 := AllDoorCoves(rooms);
    var m2 := PaintAll(m1, w, c1);
    var c2 := c1 + AllJoins(m2, w, h, sections, |sections|);
    var m3 := PaintAll(m2, w, c2);
    ClearTempTiles(m3);
    (ClearTemp(m3), c2)
  }

  /** In the finished map every cell of every corridor is corridor, and every other cell
      that changed during the corridor passes did not: the corridor cells are exactly the
      covered cells where the first phase had left something else. */
  lemma RenderCorridors(w: Positive, h: nat, rooms: seq<Room>, sections: seq<Section>)
    requires RoomsFit(rooms, w, h) && SectionsFit(sections, w, h)
    ensures var (m, cs) := Render(w, h, rooms, sections);
      var m1 := CarveRooms(Blank(w, h), w, h, rooms);
      forall i :: 0 <= i < |m| ==>
        m[i] == if CoveredBy(cs, Col(w, i), Row(w, i)) then COVE
                else if m1[i] == TMP then BLANK else m1[i]
    ensures var (m, cs) := Render(w, h, rooms, sections);
      forall i :: 0 <= i < |m| ==> (m[i] == COVE <==> CoveredBy(cs, Col(w, i), Row(w, i)))
  {
    var m1 := CarveRooms(Blank(w, h), w, h, rooms);
    var c1 := AllDoorCoves(rooms);
    var m2 := PaintAll(m1, w, c1);
    var c2 := c1 + AllJoins(m2, w, h, sections, |sections|);
    PaintAllTwice(m1, w, c1, AllJoins(m2, w, h, sections, |sections|));
    PaintAllCovered(m1, w, c2);
    assert NoCove(Blank(w, h));
  }

  /** Render, phase by phase. */
  lemma RenderSteps(w: Positive, h: nat, rooms: seq<Room>, sections: seq<Section>,
                    m1: seq<int>, c1: seq<Cove>, m2: seq<int>, c2: seq<Cove>, m3: seq<int>)
    requires RoomsFit(rooms, w, h) && SectionsFit(sections, w, h)
    requires m1 == CarveRooms(Blank(w, h), w, h, rooms) && c1 == AllDoorCoves(rooms)
    requires m2 == PaintAll(m1, w, c1) && c2 == c1 + AllJoins(m2, w, h, sections, |sections|)
    requires m3 == PaintAll(m2, w, c2)
    ensures Render(w, h, rooms, sections) == (ClearTemp(m3), c2)
  {
  }
}
