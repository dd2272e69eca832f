/** The multiplayer lobby: an in-memory list of rooms that players create,
    join and leave. The signed-in user enters as their name, or `None` when
    nobody is signed in; the clock reading that names a new room is a parameter. */
module Multiplayer {
  import opened Common
  import Utils

  datatype RoomStatus = Waiting | Playing | Finished

  datatype Room = Room(
    id: string,
    name: string,
    host: string,
    players: seq<string>,
    maxPlayers: int,
    difficulty: int,
    subject: string,
    status: RoomStatus)

  /** The characters `String.prototype.trim` removes: the ECMAScript white
      space and line terminators. */
  predicate IsJsWhitespace(c: char)
  {
    var n := c as int;
    n == 0x09 || n == 0x0A || n == 0x0B || n == 0x0C || n == 0x0D || n == 0x20
    || n == 0xA0 || n == 0x1680 || (0x2000 <= n <= 0x200A)
    || n == 0x2028 || n == 0x2029 || n == 0x202F || n == 0x205F
    || n == 0x3000 || n == 0xFEFF
  }

  /** `!s.trim()`: nothing but white space is left. */
  predicate IsBlank(s: string)
  {
    forall i :: 0 <= i < |s| ==> IsJsWhitespace(s[i])
  }

  /** A room never holds more players than it admits, nor anyone twice. */
  predicate RoomOk(r: Room)
  {
    |r.players| <= r.maxPlayers && Distinct(r.players)
  }

  /** The room `handleCreateRoom` builds. */
  function NewRoom(name: string, user: string, now: int): (r: Room)
    ensures r.host == user && r.players == [user] && r.maxPlayers == 4 && r.status == Waiting
    ensures r.name == name && r.id == Utils.IntToString(now)
    ensures RoomOk(r)
  {
    Room(Utils.IntToString(now), name, user, [user], 4, 3, "Mixed", Waiting)
  }

  /** The guard of `handleJoinRoom`. */
  predicate CanJoin(r: Room, user: Option<string>)
  {
    user.Some? && user.value !in r.players && |r.players| < r.maxPlayers
  }

  /** The room after the user joins it. */
  function Joined(r: Room, user: string): (j: Room)
    ensures j.players == r.players + [user]
    ensures j == r.(players := j.players)
  {
    r.(players := r.players + [user])
  }

  /** A permitted join keeps the room within capacity and free of repeats. */
  lemma JoinKeepsRoomOk(r: Room, user: Option<string>)
    requires RoomOk(r) && CanJoin(r, user)
    ensures RoomOk(Joined(r, user.value))
    ensures |Joined(r, user.value).players| <= r.maxPlayers
  {
    var p := Joined(r, user.value).players;
    forall i, j | 0 <= i < j < |p| ensures p[i] != p[j] {
      if j == |p| - 1 {
        assert p[i] == r.players[i];
      }
    }
  }

  /** The room after the user leaves it: every occurrence of the name goes,
      and everyone else stays in order. */
  function Left(r: Room, user: string): (l: Room)
    ensures forall p :: p in l.players <==> p in r.players && p != user
    ensures IsSubsequence(l.players, r.players)
    ensures l == r.(players := l.players)
  {
    FilterIsSubsequence(r.players, (p: string) => p != user);
    r.(players := Filter(r.players, (p: string) => p != user))
  }

  lemma LeaveKeepsRoomOk(r: Room, user: string)
    requires RoomOk(r)
    ensures RoomOk(Left(r, user))
  {
    FilterKeepsDistinct(r.players, (p: string) => p != user);
  }

  predicate AllRoomsOk(rooms: seq<Room>)
  {
    forall r :: r in rooms ==> RoomOk(r)
  }

  /** The three sample rooms the lobby starts with. */
  const SampleRooms: seq<Room> := [
    Room("1", "Math Masters", "Alice", ["Alice", "Bob"], 4, 3, "Mathematics", Waiting),
    Room("2", "Science Squad", "Charlie", ["Charlie"], 3, 2, "Science", Waiting),
    Room("3", "Logic Legends", "Diana", ["Diana", "Eve", "Frank"], 3, 4, "Logic", Playing)]

  class Lobby {
    var rooms: seq<Room>
    var showCreateRoom: bool
    var newRoomName: string
    var selectedRoom: Option<Room>

    ghost predicate Valid()
      reads this
    {
      AllRoomsOk(rooms) && (selectedRoom.Some? ==> RoomOk(selectedRoom.value))
    }

    /** The lobby as first shown, with its three sample rooms. */
    constructor ()
      ensures Valid()
      ensures rooms == SampleRooms && !showCreateRoom && newRoomName == "" && selectedRoom.None?
    {
      rooms := SampleRooms;
      showCreateRoom := false;
      newRoomName := "";
      selectedRoom := None;
    }

    method SetNewRoomName(name: string)
      modifies this
      ensures newRoomName == name
      ensures rooms == old(rooms) && selectedRoom == old(selectedRoom) && showCreateRoom == old(showCreateRoom)
    {
      newRoomName := name;
    }

    /** `handleCreateRoom()`: rejected for a blank name or when nobody is
        signed in; otherwise the new room is appended and opened. */
    method CreateRoom(user: Option<string>, now: int)
      requires Valid()
      modifies this
      ensures Valid()
      ensures IsBlank(old(newRoomName)) || user.None? ==>
        rooms == old(rooms) && newRoomName == old(newRoomName)
        && showCreateRoom == old(showCreateRoom) && selectedRoom == old(selectedRoom)
      ensures !IsBlank(old(newRoomName)) && user.Some? ==>
        var room := NewRoom(old(newRoomName), user.value, now);
        rooms == old(rooms) + [room] && selectedRoom == Some(room)
        && newRoomName == "" && !showCreateRoom
    {
      if IsBlank(newRoomName) || user.None? { return; }
      var room := NewRoom(newRoomName, user.value, now);
      rooms := rooms + [room];
      newRoomName := "";
      showCreateRoom := false;
      selectedRoom := Some(room);
    }

    /** `handleJoinRoom(room)` for a room shown in the list. */
    method JoinRoom(user: Option<string>, room: Room)
      requires Valid() && room in rooms
      modifies this
      ensures Valid()
      ensures !CanJoin(room, user) ==> rooms == old(rooms) && selectedRoom == old(selectedRoom)
      ensures CanJoin(room, user) ==>
        var joined := Joined(room, user.value);
        rooms == ReplaceWhere(old(rooms), (r: Room) => r.id == room.id, joined)
        && selectedRoom == Some(joined)
      ensures newRoomName == old(newRoomName) && showCreateRoom == old(showCreateRoom)
    {
      if !CanJoin(room, user) { return; }
      var updatedRoom := Joined(room, user.value);
      JoinKeepsRoomOk(room, user);
      rooms := ReplaceWhere(rooms, (r: Room) => r.id == room.id, updatedRoom);
      selectedRoom := Some(updatedRoom);
      forall r | r in rooms ensures RoomOk(r) {
        var k :| 0 <= k < |rooms| && rooms[k] == r;
      }
    }

    /** `handleLeaveRoom()`: the user leaves the open room, which disappears
        when nobody is left in it; the lobby is shown again. */
    method LeaveRoom(user: Option<string>)
      requires Valid()
      modifies this
      ensures Valid()
      ensures old(selectedRoom).None? || user.None? ==> rooms == old(rooms) && selectedRoom == old(selectedRoom)
      ensures old(selectedRoom).Some? && user.Some? ==>
        var sel := old(selectedRoom).value;
        var updated := Left(sel, user.value);
        && (updated.players == [] ==> rooms == Filter(old(rooms), (r: Room) => r.id != sel.id))
        && (updated.players != [] ==>
              rooms == ReplaceWhere(old(rooms), (r: Room) => r.id == sel.id, updated))
        && selectedRoom.None?
      ensures newRoomName == old(newRoomName) && showCreateRoom == old(showCreateRoom)
    {
      if selectedRoom.None? || user.None? { return; }
      var sel := selectedRoom.value;
      var updatedRoom := Left(sel, user.value);
      LeaveKeepsRoomOk(sel, user.value);
      if |updatedRoom.players| == 0 {
        rooms := Filter(rooms, (r: Room) => r.id != sel.id);
      } else {
        rooms := ReplaceWhere(rooms, (r: Room) => r.id == sel.id, updatedRoom);
        forall r | r in rooms ensures RoomOk(r) {
          var k :| 0 <= k < |rooms| && rooms[k] == r;
        }
      }
      selectedRoom := None;
    }
  }

  /** After leaving, the user is in none of the rooms whose id was the open
      room's, and no room left empty by the leave survives. */
  lemma LeaveRemovesUser(rooms: seq<Room>, sel: Room, user: string)
    ensures var updated := Left(sel, user);
      var after := if updated.players == [] then Filter(rooms, (r: Room) => r.id != sel.id)
                   else ReplaceWhere(rooms, (r: Room) => r.id == sel.id, updated);
      forall r :: r in after && r.id == sel.id ==> user !in r.players && r.players != []
  {
    var updated := Left(sel, user);
    if updated.players != [] {
      var after := ReplaceWhere(rooms, (r: Room) => r.id == sel.id, updated);
      forall r | r in after && r.id == sel.id ensures user !in r.players && r.players != [] {
        var k :| 0 <= k < |after| && after[k] == r;
      }
    }
  }
}
