/** Rooms: the rectangle placed inside a leaf section, with one door slot per face,
    and the builder whose `addDoor` fills the slots in place. */
module Rooms {
  import opened Sections

  /** Smallest room extent, and margin rule for the partition (`Room.MIN`). */
  const MIN: int := 5
  /** Marks a face without a door. */
  const NO_DOOR: int := -1

  /** The four door slots, indexed by FaceIndex. */
  type Doors = s: seq<int> | |s| == 4 witness [-1, -1, -1, -1]

  datatype Room = Room(top: int, left: int, width: int, height: int, section: Section, door: Doors)
  {
    function Bottom(): int { top + height }
    function Right(): int { left + width }

    predicate HasDoor(face: Face)
      requires IsFace(face)
    {
      door[FaceIndex(face)] != NO_DOOR
    }

    function DoorPos(face: Face): int
      requires IsFace(face)
    {
      door[FaceIndex(face)]
    }
  }

  /** Each face reads its own slot: writing a position into the slot of `face` gives that
      face a door exactly when the position is not NO_DOOR, at that position, and leaves
      what every other face reads unchanged. */
  lemma DoorSlotsApart(room: Room, face: Face, pos: int, other: Face)
    requires IsFace(face) && IsFace(other) && other != face
    ensures var r := room.(door := room.door[FaceIndex(face) := pos]);
      (r.HasDoor(face) <==> pos != NO_DOOR) && r.DoorPos(face) == pos &&
      r.HasDoor(other) == room.HasDoor(other) && r.DoorPos(other) == room.DoorPos(other)
  {
    FaceIndexInjective(face, other);
  }

  /** The geometric promise of `createRoomInFitTo`: at least MIN wide and high, with at
      least one cell of margin to the section's border on every side. */
  predicate InsideSection(room: Room)
  {
    var s := room.section;
    room.width >= MIN && room.height >= MIN &&
    s.left + 1 <= room.left && room.Right() <= s.Right() - 1 &&
    s.top + 1 <= room.top && room.Bottom() <= s.Bottom() - 1
  }

  /** A door on `face` iff the section's mask has that bit; a door on a vertical wall
      (LEFT, RIGHT) sits strictly between the corners of that wall, and likewise a door
      on a horizontal wall (TOP, BOTTOM). */
  predicate DoorOn(room: Room, face: Face)
    requires IsFace(face)
  {
    (room.HasDoor(face) <==> room.section.face & face != 0) &&
    (room.HasDoor(face) && (face == FACE_LEFT || face == FACE_RIGHT) ==>
       room.top + 1 <= room.DoorPos(face) <= room.top + room.height - 2) &&
    (room.HasDoor(face) && (face == FACE_TOP || face == FACE_BOTTOM) ==>
       room.left + 1 <= room.DoorPos(face) <= room.left + room.width - 2)
  }

  predicate DoorsMatchFaces(room: Room)
  {
    DoorOn(room, FACE_TOP) && DoorOn(room, FACE_LEFT) &&
    DoorOn(room, FACE_RIGHT) && DoorOn(room, FACE_BOTTOM)
  }

  /** Everything `createRoomInFitTo` promises about its result. */
  predicate Placed(room: Room)
  {
    InsideSection(room) && DoorsMatchFaces(room)
  }

  /** A placed room in a section without face bits (the root of a one-room dungeon) has no doors. */
  lemma NoFacesNoDoors(room: Room)
    requires Placed(room) && room.section.face == FACE_NONE
    ensures !room.HasDoor(FACE_TOP) && !room.HasDoor(FACE_LEFT)
    ensures !room.HasDoor(FACE_RIGHT) && !room.HasDoor(FACE_BOTTOM)
  {
  }

  /** Collects the geometry and the door slots before the room is built. */
  class RoomBuilder {
    const top: int
    const left: int
    const width: int
    const height: int
    const section: Section
    const door: array<int>

    constructor (top: int, left: int, width: int, height: int, section: Section)
      ensures this.top == top && this.left == left && this.width == width && this.height == height
      ensures this.section == section
      ensures fresh(door) && door.Length == 4 && door[..] == [NO_DOOR, NO_DOOR, NO_DOOR, NO_DOOR]
    {
      this.top := top;
      this.left := left;
      this.width := width;
      this.height := height;
      this.section := section;
      door := new int[4](_ => NO_DOOR);
    }

    /** Sets the slot of `face` and no other. */
    method AddDoor(face: Face, pos: int)
      requires IsFace(face) && door.Length == 4
      modifies door
      ensures door[FaceIndex(face)] == pos
      ensures forall i :: 0 <= i < 4 && i != FaceIndex(face) ==> door[i] == old(door[i])
    {
      door[FaceIndex(face)] := pos;
    }

    /** The room has the builder's geometry and section, and each face of the room reads
        the builder's slot for that face. */
    function Build(): (room: Room)
      requires door.Length == 4
      reads door
      ensures room.top == top && room.left == left && room.width == width && room.height == height
      ensures room.section == section
      ensures forall face :: IsFace(face) ==>
        room.DoorPos(face) == door[FaceIndex(face)] && (room.HasDoor(face) <==> door[FaceIndex(face)] != NO_DOOR)
    {
      Room(top, left, width, height, section, door[..])
    }
  }
}
