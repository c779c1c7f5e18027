/**
 * The room rules of the game lobby (GameLobby.tsx): creating a room, joining
 * one, and the timer that now and then lets a friend join a room. The room
 * list only ever grows at the front or gains a player in one room.
 */
module Lobby {
  import opened Builtins

  datatype PlayerStatus = Online | Playing | Away | Offline

  datatype PlayerInfo = PlayerInfo(
    id: string,
    name: string,
    avatar: string,
    status: PlayerStatus,
    level: int,
    rank: Option<string>)

  datatype RoomStatus = Waiting | InProgress | Finished

  datatype GameMode = Casual | Ranked | Tournament

  datatype GameRoom = GameRoom(
    id: string,
    name: string,
    host: PlayerInfo,
    players: seq<PlayerInfo>,
    maxPlayers: int,
    status: RoomStatus,
    mode: GameMode,
    createdAt: string)

  /** The ui-avatars.com URL every sample avatar uses: initials drawn from
      `name` on a `background` colour, in white. */
  function AvatarUrl(name: string, background: string): string {
    "https://ui-avatars.com/api/?name=" + name + "&background=" + background + "&color=fff"
  }

  /** The local player, `currentPlayer` in the component. */
  function CurrentPlayer(): PlayerInfo {
    PlayerInfo("you", "You", AvatarUrl("You", "8b5cf6"),
               Online, 25, Some("Silver"))
  }

  /** `SAMPLE_PLAYERS`, the initial friends list, one function per player so
      that proofs about the sample rooms need not unfold the whole list. */
  function SamplePlayers(): seq<PlayerInfo> {
    [CardMaster(), DeckBuilder9000(), MagicWielder(), LegendaryPlayer(), SpellCaster123()]
  }

  function CardMaster(): PlayerInfo {
    PlayerInfo("p1", "CardMaster", AvatarUrl("CardMaster", "a855f7"),
               Online, 42, Some("Gold"))
  }

  function DeckBuilder9000(): PlayerInfo {
    PlayerInfo("p2", "DeckBuilder9000", AvatarUrl("DeckBuilder", "3b82f6"),
               Playing, 31, Some("Silver"))
  }

  function MagicWielder(): PlayerInfo {
    PlayerInfo("p3", "MagicWielder", AvatarUrl("MagicWielder", "10b981"),
               Online, 27, Some("Bronze"))
  }

  function LegendaryPlayer(): PlayerInfo {
    PlayerInfo("p4", "LegendaryPlayer", AvatarUrl("Legendary", "f59e0b"),
               Away, 65, Some("Platinum"))
  }

  function SpellCaster123(): PlayerInfo {
    PlayerInfo("p5", "SpellCaster123", AvatarUrl("SpellCaster", "ef4444"),
               Online, 18, None)
  }

  /** `SAMPLE_ROOMS`, the initial room list: hosts and players are entries of
      `SAMPLE_PLAYERS` (indices 0 and 3, 2, and 1 and 4). */
  function SampleRooms(): seq<GameRoom> {
    [ GameRoom("r1", "Pro Players Only", CardMaster(), [CardMaster(), LegendaryPlayer()],
               2, Waiting, Ranked, "2 min ago"),
      GameRoom("r2", "Casual Fun Match", MagicWielder(), [MagicWielder()],
               2, Waiting, Casual, "5 min ago"),
      GameRoom("r3", "Tournament Prep", DeckBuilder9000(), [DeckBuilder9000(), SpellCaster123()],
               2, InProgress, Tournament, "12 min ago") ]
  }

  ghost predicate UniqueRoomIds(rooms: seq<GameRoom>) {
    forall i, j :: 0 <= i < j < |rooms| ==> rooms[i].id != rooms[j].id
  }

  /** No room holds more players than it allows. */
  ghost predicate WithinCapacity(rooms: seq<GameRoom>) {
    forall i :: 0 <= i < |rooms| ==> |rooms[i].players| <= rooms[i].maxPlayers
  }

  /** No room lists the same player id twice. */
  ghost predicate MembersDistinct(rooms: seq<GameRoom>) {
    forall i, a, b :: 0 <= i < |rooms| && 0 <= a < b < |rooms[i].players| ==>
      rooms[i].players[a].id != rooms[i].players[b].id
  }

  /** `room.players.some(p => p.id === playerId)`: some listed player has the id. */
  predicate IsMember(room: GameRoom, playerId: string)
    ensures IsMember(room, playerId) <==> exists p :: p in room.players && p.id == playerId
  {
    exists k :: 0 <= k < |room.players| && room.players[k].id == playerId
  }

  /** After a player is appended to a room, exactly the old members and the
      new player are members. */
  lemma MembershipAfterJoin(room: GameRoom, p: PlayerInfo, playerId: string)
    ensures IsMember(room.(players := room.players + [p]), playerId) <==>
              IsMember(room, playerId) || p.id == playerId
  {
    var joined := room.(players := room.players + [p]);
    if IsMember(room, playerId) {
      var k :| 0 <= k < |room.players| && room.players[k].id == playerId;
      assert joined.players[k] == room.players[k];
    }
    if p.id == playerId {
      assert joined.players[|room.players|] == p;
    }
    if IsMember(joined, playerId) && p.id != playerId {
      var k :| 0 <= k < |joined.players| && joined.players[k].id == playerId;
      assert k < |room.players| && room.players[k] == joined.players[k];
    }
  }

  /** Why `handleJoinGame` refused, in the order it checks. */
  datatype JoinRejection = RoomFull | GameStarted

  /** The two guards of `handleJoinGame`: a full room is refused first, then a
      room that is not waiting. */
  function CheckJoin(room: GameRoom): (r: Option<JoinRejection>)
    ensures r == Some(RoomFull) <==> |room.players| >= room.maxPlayers
    ensures r == Some(GameStarted) <==> |room.players| < room.maxPlayers && room.status != Waiting
    ensures r == None <==> |room.players| < room.maxPlayers && room.status == Waiting
  {
    if |room.players| >= room.maxPlayers then Some(RoomFull)
    else if room.status != Waiting then Some(GameStarted)
    else None
  }

  /** `rooms.map(r => r.id === roomId ? { ...r, players: [...r.players, p] } : r)`:
      the rooms with that id gain the player at the end of their list, every
      other room is left as it was. */
  function AddPlayerToRooms(rooms: seq<GameRoom>, roomId: string, p: PlayerInfo): (r: seq<GameRoom>)
    ensures |r| == |rooms|
    ensures forall i :: 0 <= i < |r| && rooms[i].id == roomId ==>
              r[i] == rooms[i].(players := rooms[i].players + [p])
    ensures forall i :: 0 <= i < |r| && rooms[i].id != roomId ==> r[i] == rooms[i]
  {
    seq(|rooms|, i requires 0 <= i < |rooms| =>
      if rooms[i].id == roomId then rooms[i].(players := rooms[i].players + [p]) else rooms[i])
  }

  /** With distinct room ids, a join that passed `CheckJoin` changes exactly the
      joined room, and no room goes over capacity. */
  lemma JoinChangesOneRoomWithinCapacity(rooms: seq<GameRoom>, room: GameRoom, p: PlayerInfo)
    requires UniqueRoomIds(rooms) && WithinCapacity(rooms)
    requires room in rooms
    requires CheckJoin(room) == None
    ensures var r := AddPlayerToRooms(rooms, room.id, p);
            && WithinCapacity(r)
            && UniqueRoomIds(r)
            && forall i :: 0 <= i < |rooms| ==> (r[i] != rooms[i] <==> rooms[i] == room)
  {
    var r := AddPlayerToRooms(rooms, room.id, p);
    var k :| 0 <= k < |rooms| && rooms[k] == room;
    forall i | 0 <= i < |rooms| ensures |r[i].players| <= r[i].maxPlayers
      && (r[i] != rooms[i] <==> rooms[i] == room)
    {
      if rooms[i].id == room.id {
        assert i == k;
        assert |r[i].players| == |rooms[i].players| + 1;
      }
    }
  }

  /** The guard of the simulated join, with the two random indices as inputs:
      both must point into their lists (otherwise `room` or `player` is
      `undefined`), and the room must have space, be waiting and not already
      list that player. */
  function SimulatedJoinAllowed(rooms: seq<GameRoom>, friends: seq<PlayerInfo>,
                                roomIndex: int, playerIndex: int): (ok: bool)
    ensures ok <==>
              && 0 <= roomIndex < |rooms|
              && 0 <= playerIndex < |friends|
              && CheckJoin(rooms[roomIndex]) == None
              && forall k :: 0 <= k < |rooms[roomIndex].players| ==>
                   rooms[roomIndex].players[k].id != friends[playerIndex].id
  {
    && 0 <= roomIndex < |rooms|
    && 0 <= playerIndex < |friends|
    && |rooms[roomIndex].players| < rooms[roomIndex].maxPlayers
    && !IsMember(rooms[roomIndex], friends[playerIndex].id)
    && rooms[roomIndex].status == Waiting
  }

  /** A simulated join never lists a player twice in a room and never
      overfills one. */
  lemma SimulatedJoinKeepsRoomsSound(rooms: seq<GameRoom>, friends: seq<PlayerInfo>,
                                     roomIndex: int, playerIndex: int)
    requires UniqueRoomIds(rooms) && WithinCapacity(rooms) && MembersDistinct(rooms)
    requires SimulatedJoinAllowed(rooms, friends, roomIndex, playerIndex)
    ensures var r := AddPlayerToRooms(rooms, rooms[roomIndex].id, friends[playerIndex]);
            WithinCapacity(r) && UniqueRoomIds(r) && MembersDistinct(r)
  {
    var room := rooms[roomIndex];
    var p := friends[playerIndex];
    var r := AddPlayerToRooms(rooms, room.id, p);
    JoinChangesOneRoomWithinCapacity(rooms, room, p);
    forall i, a, b | 0 <= i < |r| && 0 <= a < b < |r[i].players|
      ensures r[i].players[a].id != r[i].players[b].id
    {
      if rooms[i].id == room.id {
        assert i == roomIndex;
        if b == |room.players| {
          assert r[i].players[b] == p;
          assert r[i].players[a] == room.players[a];
        }
      }
    }
  }

  /** `handleJoinGame` has no membership check: the host of a room they just
      created can join it and be listed twice. */
  lemma JoinOwnRoomListsHostTwice()
    ensures var room := GameRoom("r1", "Mine", CurrentPlayer(), [CurrentPlayer()], 2, Waiting, Casual, "just now");
            && CheckJoin(room) == None
            && MembersDistinct([room])
            && !MembersDistinct(AddPlayerToRooms([room], room.id, CurrentPlayer()))
  {
    var room := GameRoom("r1", "Mine", CurrentPlayer(), [CurrentPlayer()], 2, Waiting, Casual, "just now");
    var r := AddPlayerToRooms([room], room.id, CurrentPlayer());
    assert r[0].players == [CurrentPlayer(), CurrentPlayer()];
    assert r[0].players[0].id == r[0].players[1].id;
  }

  /** The sample rooms have distinct ids, are within capacity and list no
      player twice; their only free seat is in "Casual Fun Match". */
  lemma SampleRoomsSound()
    ensures UniqueRoomIds(SampleRooms()) && WithinCapacity(SampleRooms()) && MembersDistinct(SampleRooms())
    ensures forall i :: 0 <= i < |SampleRooms()| ==>
              (CheckJoin(SampleRooms()[i]) == None <==> SampleRooms()[i].id == "r2")
  {
    var rooms := SampleRooms();
    assert rooms[0].players[0].id[1] != rooms[0].players[1].id[1];
    assert rooms[2].players[0].id[1] != rooms[2].players[1].id[1];
    assert rooms[0].id[1] != rooms[1].id[1] && rooms[1].id[1] != rooms[2].id[1] && rooms[0].id[1] != rooms[2].id[1];
  }

  // ---------------------------------------------------------------------------
  // The component's state
  // ---------------------------------------------------------------------------

  class GameLobby {
    var gameRooms: seq<GameRoom>
    /** `friendsList`: never updated after mount. */
    const friendsList: seq<PlayerInfo>

    /** Room ids are distinct and no room is over capacity. */
    ghost predicate Valid()
      reads this
    {
      UniqueRoomIds(gameRooms) && WithinCapacity(gameRooms)
    }

    constructor ()
      ensures Valid()
      ensures gameRooms == SampleRooms() && friendsList == SamplePlayers()
      ensures MembersDistinct(gameRooms)
    {
      SampleRoomsSound();
      gameRooms := SampleRooms();
      friendsList := SamplePlayers();
    }

    /** `handleCreateGame`: a name that is blank after trimming is refused;
        otherwise a waiting two-player room hosted by the local player, named
        with the trimmed name and keyed by `freshId` (the `r${Date.now()}` id),
        goes to the front of the list. */
    method CreateGame(newGameName: string, newGameMode: GameMode, freshId: string)
      returns (created: Option<GameRoom>)
      requires Valid()
      requires forall k :: 0 <= k < |gameRooms| ==> gameRooms[k].id != freshId
      modifies this
      ensures Valid()
      ensures Trim(newGameName) == [] ==> created == None && gameRooms == old(gameRooms)
      ensures Trim(newGameName) != [] ==>
                && created.Some?
                && created.value.id == freshId
                && created.value.name == Trim(newGameName)
                && created.value.host == CurrentPlayer()
                && created.value.players == [CurrentPlayer()]
                && created.value.maxPlayers == 2
                && created.value.status == Waiting
                && created.value.mode == newGameMode
                && created.value.createdAt == "just now"
                && gameRooms == [created.value] + old(gameRooms)
      ensures old(MembersDistinct(gameRooms)) ==> MembersDistinct(gameRooms)
    {
      var name := Trim(newGameName);
      if name == [] {
        return None;
      }
      var newRoom := GameRoom(freshId, name, CurrentPlayer(), [CurrentPlayer()], 2, Waiting, newGameMode, "just now");
      gameRooms := [newRoom] + gameRooms;
      created := Some(newRoom);
      assert forall i :: 0 < i < |gameRooms| ==> gameRooms[i] == old(gameRooms)[i - 1];
    }

    /** `handleJoinGame`, called with a room of the current list: refused when
        the room is full or not waiting; otherwise the local player is added
        to that room and to no other. */
    method JoinGame(room: GameRoom) returns (r: Option<JoinRejection>)
      requires Valid()
      requires room in gameRooms
      modifies this
      ensures Valid()
      ensures r == CheckJoin(room)
      ensures r != None ==> gameRooms == old(gameRooms)
      ensures r == None ==> gameRooms == AddPlayerToRooms(old(gameRooms), room.id, CurrentPlayer())
      ensures r == None ==> forall i :: 0 <= i < |gameRooms| ==>
                (gameRooms[i] != old(gameRooms)[i] <==> old(gameRooms)[i] == room)
    {
      if |room.players| >= room.maxPlayers {
        return Some(RoomFull);
      }
      if room.status != Waiting {
        return Some(GameStarted);
      }
      JoinChangesOneRoomWithinCapacity(gameRooms, room, CurrentPlayer());
      gameRooms := AddPlayerToRooms(gameRooms, room.id, CurrentPlayer());
      r := None;
    }

    /** One tick of the 15-second interval on which the random draw fired,
        with the random room and friend indices as inputs. */
    method SimulatePlayerJoin(roomIndex: int, playerIndex: int) returns (joined: bool)
      requires Valid()
      modifies this
      ensures Valid()
      ensures joined == SimulatedJoinAllowed(old(gameRooms), friendsList, roomIndex, playerIndex)
      ensures joined ==> gameRooms == AddPlayerToRooms(old(gameRooms), old(gameRooms)[roomIndex].id,
                                                      friendsList[playerIndex])
      ensures !joined ==> gameRooms == old(gameRooms)
      ensures old(MembersDistinct(gameRooms)) ==> MembersDistinct(gameRooms)
    {
      joined := SimulatedJoinAllowed(gameRooms, friendsList, roomIndex, playerIndex);
      if joined {
        var room := gameRooms[roomIndex];
        JoinChangesOneRoomWithinCapacity(gameRooms, room, friendsList[playerIndex]);
        if MembersDistinct(gameRooms) {
          SimulatedJoinKeepsRoomsSound(gameRooms, friendsList, roomIndex, playerIndex);
        }
        gameRooms := AddPlayerToRooms(gameRooms, room.id, friendsList[playerIndex]);
      }
    }
  }
}
