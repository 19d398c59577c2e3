/** The `/leave` command: the user is taken off the roster of the first
    room that has them, whatever that room's status. */
module Leave {
  import opened Common
  import opened Db
  import Join

  datatype LeaveError = NotInRoom

  /** `players.filter(player => player.id !== user)`. */
  function WithoutPlayer(players: seq<Player>, user: UserId): (r: seq<Player>)
    ensures forall x :: InRoster(r, x) <==> InRoster(players, x) && x != user
    ensures forall p :: p in r <==> p in players && p.id != user
    ensures |r| <= |players|
    ensures UniqueIds(players) ==> UniqueIds(r)
  {
    if |players| == 0 then []
    else
      var init, p := players[..|players| - 1], players[|players| - 1];
      assert players == init + [p];
      RosterSnoc(init, p);
      var rest := WithoutPlayer(init, user);
      if p.id != user then
        RosterSnoc(rest, p);
        rest + [p]
      else
        rest
  }

  /** Filtering distributes over concatenation: the players who stay keep
      their order. */
  lemma {:induction false} WithoutPlayerAppend(a: seq<Player>, b: seq<Player>, user: UserId)
    ensures WithoutPlayer(a + b, user) == WithoutPlayer(a, user) + WithoutPlayer(b, user)
  {
    if |b| > 0 {
      var init, p := b[..|b| - 1], b[|b| - 1];
      assert (a + b)[..|a + b| - 1] == a + init;
      WithoutPlayerAppend(a, init, user);
    } else {
      assert a + b == a;
    }
  }

  /** Removing a user who is not on the roster changes nothing. */
  lemma {:induction false} WithoutAbsentPlayer(players: seq<Player>, user: UserId)
    requires !InRoster(players, user)
    ensures WithoutPlayer(players, user) == players
  {
    if |players| > 0 {
      var init, p := players[..|players| - 1], players[|players| - 1];
      assert players == init + [p];
      RosterSnoc(init, p);
      assert !InRoster(init, user) && p.id != user;
      WithoutAbsentPlayer(init, user);
      calc {
        WithoutPlayer(players, user);
        WithoutPlayer(init, user) + [p];
        init + [p];
      }
    }
  }

  /** The command on the store: the first room holding the user is rewritten,
      at its own index, with the user's entries removed. */
  function LeaveSpec(rooms: seq<Room>, user: UserId): (r: (Result<string, LeaveError>, seq<Room>))
    ensures |r.1| == |rooms| && forall j :: 0 <= j < |rooms| ==> r.1[j].name == rooms[j].name
    ensures r.0.Err? ==> r.1 == rooms
    ensures r.0.Ok? ==> forall j :: 0 <= j < |rooms| && rooms[j].name != r.0.value ==> r.1[j] == rooms[j]
  {
    match RoomOf(rooms, user)
    case None => (Err(NotInRoom), rooms)
    case Some(i) => (Ok(rooms[i].name), rooms[i := rooms[i].(players := WithoutPlayer(rooms[i].players, user))])
  }

  /** `execute` of `/leave`; the reply names the room that was left. */
  method LeaveRoom(db: MafiaDb, user: UserId) returns (r: Result<string, LeaveError>)
    modifies db
    ensures db.scenarios == old(db.scenarios)
    ensures (r, db.rooms) == LeaveSpec(old(db.rooms), user)
  {
    var rooms := db.rooms;
    var found := RoomOf(rooms, user);
    if found.None? {
      return Err(NotInRoom);
    }
    var i := found.value;
    var room := rooms[i];
    room := room.(players := WithoutPlayer(room.players, user));
    db.rooms := rooms[i := room];
    r := Ok(room.name);
  }

  /** Leaving takes the user off every room's roster when every user sits
      in at most one room, keeps that shape, and touches no other room; it
      fails only for a user in no room. */
  lemma {:induction false} LeaveEffect(rooms: seq<Room>, user: UserId)
    requires OneRoomEach(rooms)
    ensures
      var (r, after) := LeaveSpec(rooms, user);
      && (r.Err? <==> forall j :: 0 <= j < |rooms| ==> !InRoster(rooms[j].players, user))
      && (r.Err? ==> after == rooms)
      && |after| == |rooms|
      && (forall j :: 0 <= j < |after| ==> !InRoster(after[j].players, user))
      && (r.Ok? ==>
            var i := RoomOf(rooms, user).value;
            && r.value == rooms[i].name
            && after[i] == rooms[i].(players := after[i].players)
            && after[i].players == WithoutPlayer(rooms[i].players, user)
            && (forall j :: 0 <= j < |rooms| && j != i ==> after[j] == rooms[j]))
      && OneRoomEach(after)
  {
    var (r, after) := LeaveSpec(rooms, user);
    if r.Ok? {
      var i := RoomOf(rooms, user).value;
      forall j | 0 <= j < |rooms| && j != i
        ensures !InRoster(rooms[j].players, user)
      {
      }
    }
  }

  /** Leaving right after joining gives the room back its roster. */
  lemma {:induction false} LeaveUndoesJoin(room: Room, user: UserId)
    requires !InRoster(room.players, user)
    ensures WithoutPlayer(Join.AddPlayer(room, user).players, user) == room.players
  {
    WithoutPlayerAppend(room.players, [Player(user, None)], user);
    WithoutAbsentPlayer(room.players, user);
    assert WithoutPlayer([Player(user, None)], user) == [] by {
      assert [Player(user, None)][..0] == [];
    }
  }
}
