/** The `/join` command: a user who is in no room joins a waiting room,
    either the one they name or one of the emptiest. */
module Join {
  import opened Common
  import opened Db

  datatype JoinError =
    | AlreadyInRoom(room: string)   // the user is a player of this room already
    | NoSuchRoom(name: string)      // no waiting room has the requested name
    | NoRoomAvailable               // no room is waiting

  /** The reply: the joined room and the party size announced in it. */
  datatype Joined = Joined(room: string, partySize: nat)

  /** A room name was given. An empty option counts as none, as the empty
      string is falsy. */
  predicate Named(requested: Option<string>) {
    requested.Some? && requested.value != ""
  }

  /** The first waiting room called `name`. */
  function NamedChoice(rooms: seq<Room>, name: string): (r: Option<nat>)
    ensures r.Some? ==> r.value < |rooms| && rooms[r.value].status == Waiting && rooms[r.value].name == name
    ensures r.Some? ==> forall j :: 0 <= j < r.value ==> !(rooms[j].status == Waiting && rooms[j].name == name)
    ensures r.None? <==> forall j :: 0 <= j < |rooms| ==> !(rooms[j].status == Waiting && rooms[j].name == name)
  {
    FirstIndex(rooms, (room: Room) => room.status == Waiting && room.name == name)
  }

  /** Room `i` is waiting and no waiting room has fewer players. */
  predicate FewestPlayers(rooms: seq<Room>, i: nat) {
    && i < |rooms| && rooms[i].status == Waiting
    && forall j :: 0 <= j < |rooms| && rooms[j].status == Waiting ==> |rooms[i].players| <= |rooms[j].players|
  }

  /** The rooms the command may pick: the named waiting room (upper-cased
      name), or else every waiting room with the fewest players, among which
      the random order decides. */
  function Candidates(rooms: seq<Room>, requested: Option<string>): (r: set<nat>)
    ensures forall i :: i in r ==> i < |rooms| && rooms[i].status == Waiting
    ensures Named(requested) ==> forall i :: i in r ==> rooms[i].name == Upper(requested.value)
  {
    if Named(requested) then
      match NamedChoice(rooms, Upper(requested.value))
      case None => {}
      case Some(i) => {i}
    else
      set i | 0 <= i < |rooms| && FewestPlayers(rooms, i)
  }

  /** A waiting room with the fewest players, when some room is waiting. */
  function MinWaiting(rooms: seq<Room>): (r: Option<nat>)
    ensures r.Some? ==> FewestPlayers(rooms, r.value)
    ensures r.None? <==> forall j :: 0 <= j < |rooms| ==> rooms[j].status != Waiting
  {
    if |rooms| == 0 then None
    else
      var n := |rooms| - 1;
      var init := rooms[..n];
      assert forall j :: 0 <= j < n ==> rooms[j] == init[j];
      match MinWaiting(init)
      case None => if rooms[n].status == Waiting then Some(n) else None
      case Some(k) =>
        if rooms[n].status == Waiting && |rooms[n].players| < |rooms[k].players| then Some(n) else Some(k)
  }

  /** There is something to pick exactly when a waiting room has the
      requested name, or, with no name, when any room is waiting. */
  lemma {:induction false} CandidatesExist(rooms: seq<Room>, requested: Option<string>)
    ensures Candidates(rooms, requested) != {} <==>
      if Named(requested) then exists j :: 0 <= j < |rooms| && rooms[j].status == Waiting && rooms[j].name == Upper(requested.value)
      else exists j :: 0 <= j < |rooms| && rooms[j].status == Waiting
    ensures forall i :: i in Candidates(rooms, requested) ==> i < |rooms| && rooms[i].status == Waiting
  {
    if !Named(requested) {
      var m := MinWaiting(rooms);
      if m.Some? {
        assert m.value in Candidates(rooms, requested);
      }
    }
  }

  /** The roster after `user` joins: a new player without a role at the end. */
  function AddPlayer(room: Room, user: UserId): (r: Room)
    ensures r == room.(players := r.players)
    ensures |r.players| == |room.players| + 1 && r.players[..|room.players|] == room.players
    ensures r.players[|room.players|] == Player(user, None)
  {
    room.(players := room.players + [Player(user, None)])
  }

  /** The command given which room the random order put first (`pick`,
      drawn from the candidates). The player is written into the file of the
      room with the picked room's name. */
  function JoinOutcome(rooms: seq<Room>, user: UserId, requested: Option<string>, pick: Option<nat>): (r: (Result<Joined, JoinError>, seq<Room>))
    requires pick.Some? ==> pick.value < |rooms|
    ensures |r.1| == |rooms|
    ensures r.0.Err? ==> r.1 == rooms
    ensures r.0.Ok? ==> forall j :: 0 <= j < |rooms| && rooms[j].name != r.0.value.room ==> r.1[j] == rooms[j]
  {
    match RoomOf(rooms, user)
    case Some(k) => (Err(AlreadyInRoom(rooms[k].name)), rooms)
    case None =>
      match pick
      case None => (Err(if Named(requested) then NoSuchRoom(Upper(requested.value)) else NoRoomAvailable), rooms)
      case Some(i) =>
        var room := rooms[i];
        var f := FindRoom(rooms, room.name);
        assert f.Some? by {
          assert rooms[i].name == room.name;
        }
        (Ok(Joined(room.name, |room.players| + 1)), rooms[f.value := AddPlayer(rooms[f.value], user)])
  }

  /** The pick is one of the candidates, and is absent only when there are none. */
  predicate ValidPick(rooms: seq<Room>, requested: Option<string>, pick: Option<nat>) {
    && (pick.None? <==> Candidates(rooms, requested) == {})
    && (pick.Some? ==> pick.value in Candidates(rooms, requested) && pick.value < |rooms|)
  }

  /** `execute` of `/join`; `chosen` is the room the random order put first. */
  method JoinRoom(db: MafiaDb, user: UserId, requested: Option<string>) returns (r: Result<Joined, JoinError>, chosen: Option<nat>)
    modifies db
    ensures db.scenarios == old(db.scenarios)
    ensures RoomOf(old(db.rooms), user).None? ==> ValidPick(old(db.rooms), requested, chosen)
    ensures chosen.Some? ==> chosen.value < |old(db.rooms)|
    ensures (r, db.rooms) == JoinOutcome(old(db.rooms), user, requested, chosen)
  {
    var rooms := db.rooms;
    var inRoom := RoomOf(rooms, user);
    if inRoom.Some? {
      return Err(AlreadyInRoom(rooms[inRoom.value].name)), None;
    }
    var candidates := Candidates(rooms, requested);
    CandidatesExist(rooms, requested);
    if candidates == {} {
      r := Err(if Named(requested) then NoSuchRoom(Upper(requested.value)) else NoRoomAvailable);
      return r, None;
    }
    var i :| i in candidates;
    var room := rooms[i];
    var f := FindRoom(rooms, room.name);
    assert rooms[i].name == room.name;
    db.rooms := rooms[f.value := AddPlayer(rooms[f.value], user)];
    r, chosen := Ok(Joined(room.name, |room.players| + 1)), Some(i);
  }

  /** What a successful join does: the picked room is waiting and is either
      the first waiting room with the upper-cased name or a waiting room with
      the fewest players; the player is appended to the room of that name,
      nothing else changes, and the party size is the old roster size plus one. */
  lemma {:induction false} JoinEffect(rooms: seq<Room>, user: UserId, requested: Option<string>, pick: Option<nat>)
    requires UniqueNames(rooms)
    requires ValidPick(rooms, requested, pick)
    requires JoinOutcome(rooms, user, requested, pick).0.Ok?
    ensures pick.Some? && RoomOf(rooms, user).None?
    ensures
      var i := pick.value;
      var (r, after) := JoinOutcome(rooms, user, requested, pick);
      && rooms[i].status == Waiting
      && (Named(requested) ==>
            && rooms[i].name == Upper(requested.value)
            && forall j :: 0 <= j < i ==> !(rooms[j].status == Waiting && rooms[j].name == rooms[i].name))
      && (!Named(requested) ==> FewestPlayers(rooms, i))
      && |after| == |rooms|
      && after[i].players == rooms[i].players + [Player(user, None)]
      && after[i] == rooms[i].(players := after[i].players)
      && (forall j :: 0 <= j < |rooms| && j != i ==> after[j] == rooms[j])
      && r.value == Joined(rooms[i].name, |rooms[i].players| + 1)
  {
    var i := pick.value;
    var f := FindRoom(rooms, rooms[i].name);
    assert f.value == i;
  }

  /** A user already in a room is turned away and nothing changes. */
  lemma {:induction false} JoinRejectsMembers(rooms: seq<Room>, user: UserId, requested: Option<string>, pick: Option<nat>, k: nat)
    requires pick.Some? ==> pick.value < |rooms|
    requires k < |rooms| && InRoster(rooms[k].players, user)
    ensures JoinOutcome(rooms, user, requested, pick).0.Err?
    ensures JoinOutcome(rooms, user, requested, pick).0.error.AlreadyInRoom?
    ensures JoinOutcome(rooms, user, requested, pick).1 == rooms
  {
  }

  /** Joining keeps every user in at most one room, at most once. */
  lemma {:induction false} JoinKeepsOneRoomEach(rooms: seq<Room>, user: UserId, requested: Option<string>, pick: Option<nat>)
    requires pick.Some? ==> pick.value < |rooms|
    requires OneRoomEach(rooms)
    ensures OneRoomEach(JoinOutcome(rooms, user, requested, pick).1)
  {
    var after := JoinOutcome(rooms, user, requested, pick).1;
    if RoomOf(rooms, user).None? && pick.Some? {
      var f := FindRoom(rooms, rooms[pick.value].name).value;
      var ps := rooms[f].players;
      var qs := after[f].players;
      assert qs == ps + [Player(user, None)];
      forall x
        ensures InRoster(qs, x) <==> InRoster(ps, x) || x == user
      {
        if InRoster(qs, x) && x != user {
          var j :| 0 <= j < |qs| && qs[j].id == x;
          assert ps[j].id == x;
        }
        if InRoster(ps, x) {
          var j :| 0 <= j < |ps| && ps[j].id == x;
          assert qs[j].id == x;
        }
        if x == user {
          assert qs[|ps|].id == x;
        }
      }
      assert UniqueIds(qs) by {
        forall a, b | 0 <= a < b < |qs|
          ensures qs[a].id != qs[b].id
        {
          if b == |ps| {
            assert InRoster(ps, qs[a].id);
          }
        }
      }
    }
  }

  /** A room whose name holds a lower-case ASCII letter cannot be joined by
      name: the requested name is upper-cased first. */
  lemma {:induction false} LowerCaseRoomsUnjoinableByName(rooms: seq<Room>, requested: Option<string>, i: nat, k: nat)
    requires Named(requested)
    requires i < |rooms| && k < |rooms[i].name| && 'a' <= rooms[i].name[k] <= 'z'
    ensures i !in Candidates(rooms, requested)
  {
    var name := Upper(requested.value);
    if k < |name| {
      assert name[k] == UpperChar(requested.value[k]);
    }
    assert rooms[i].name != name;
  }
}
