/** The records of the game store and the store itself.

    The source keeps the rooms either in one `/rooms` list or in one file per
    room; both are modelled by the single `MafiaDb` object below, where "the
    file of room N" is the first room whose name is N. */
module Db {
  import opened Common

  /** A Discord user id: a snowflake, never the empty string, so that the
      source's truthiness tests on ids are exactly "is present". */
  type UserId = s: string | |s| > 0 witness "0"

  datatype RoleType = Killer | Innocent | Healer | Investigator

  /** The declaration order of these constructors is the order of the stage
      cycle (see StageEngine.StageOrder). */
  datatype StageType = Kill | Heal | Investigate | Vote

  datatype Status = Waiting | Playing | Finished

  datatype Ability = Ability(name: string, description: string)

  /** One vote of a stage: `{ from, to }`. */
  datatype Ballot = Ballot(from: UserId, to: UserId)

  /** A stage of a room. `votes` is read and written by the commands although
      the record declaration does not list it. */
  datatype Stage = Stage(
    stageType: StageType,
    status: Status,
    result: Option<UserId>,
    day: int,
    name: string,
    description: string,
    targets: seq<RoleType>,
    roles: seq<RoleType>,
    resultPrompt: string,
    votes: seq<Ballot>)

  /** A stage template of a scenario. */
  datatype StageScenario = StageScenario(
    name: string,
    stageType: StageType,
    description: string,
    roles: seq<RoleType>,
    targets: seq<RoleType>,
    resultPrompt: string)

  datatype Role = Role(name: string, roleType: RoleType, description: string, abilities: seq<Ability>)

  /** A member of a room; `role` is undefined until the game starts. */
  datatype Player = Player(id: UserId, role: Option<RoleType>)

  datatype Scenario = Scenario(
    name: string,
    theme: string,
    description: string,
    image: string,
    roles: seq<Role>,
    stages: seq<StageScenario>)

  datatype Room = Room(
    name: string,
    scenario: Scenario,
    players: seq<Player>,
    stages: seq<Stage>,
    status: Status)

  /** The whole store: the rooms and the scenario catalog. */
  class MafiaDb {
    var rooms: seq<Room>
    var scenarios: seq<Scenario>

    constructor(rooms: seq<Room>, scenarios: seq<Scenario>)
      ensures this.rooms == rooms && this.scenarios == scenarios
    {
      this.rooms := rooms;
      this.scenarios := scenarios;
    }
  }

  /** Index of the room stored under `name` (`rooms.find(room => room.name === name)`). */
  function FindRoom(rooms: seq<Room>, name: string): (r: Option<nat>)
    ensures r.Some? ==> r.value < |rooms| && rooms[r.value].name == name
    ensures r.Some? ==> forall j :: 0 <= j < r.value ==> rooms[j].name != name
    ensures r.None? <==> forall j :: 0 <= j < |rooms| ==> rooms[j].name != name
  {
    FirstIndex(rooms, (room: Room) => room.name == name)
  }

  /** True when some player of the roster has id `user`. */
  predicate InRoster(players: seq<Player>, user: UserId) {
    exists j :: 0 <= j < |players| && players[j].id == user
  }

  /** True when `user` is one of the room's players. */
  predicate HasPlayer(room: Room, user: UserId) {
    InRoster(room.players, user)
  }

  /** The role of the first player with id `user`, when there is such a player
      and its role is defined (`players.find(p => p.id === user)?.role`). */
  function RoleOf(players: seq<Player>, user: UserId): (r: Option<RoleType>)
    ensures r.Some? ==> exists j :: 0 <= j < |players| && players[j] == Player(user, r)
    ensures forall k ::
      (0 <= k < |players| && players[k].id == user && forall j :: 0 <= j < k ==> players[j].id != user)
      ==> r == players[k].role
    ensures (forall k :: 0 <= k < |players| ==> players[k].id != user) ==> r.None?
  {
    match FirstIndex(players, (p: Player) => p.id == user)
    case None => None
    case Some(j) => players[j].role
  }

  /** No two players of a roster share an id. */
  predicate UniqueIds(players: seq<Player>) {
    forall i, j :: 0 <= i < j < |players| ==> players[i].id != players[j].id
  }

  /** A player appended to a roster: its id joins the roster's ids, and the
      ids stay unique exactly when it was not on the roster already. */
  lemma {:induction false} RosterSnoc(players: seq<Player>, p: Player)
    ensures forall x :: InRoster(players + [p], x) <==> InRoster(players, x) || p.id == x
    ensures UniqueIds(players + [p]) <==> UniqueIds(players) && !InRoster(players, p.id)
  {
    var s := players + [p];
    forall x | InRoster(s, x) && x != p.id
      ensures InRoster(players, x)
    {
      var j :| 0 <= j < |s| && s[j].id == x;
      assert players[j].id == x;
    }
    forall x | InRoster(players, x)
      ensures InRoster(s, x)
    {
      var j :| 0 <= j < |players| && players[j].id == x;
      assert s[j].id == x;
    }
    assert s[|players|] == p;
    assert forall k :: 0 <= k < |players| ==> s[k] == players[k];
    if UniqueIds(players) && !InRoster(players, p.id) {
      forall i, j | 0 <= i < j < |s|
        ensures s[i].id != s[j].id
      {
        if j == |players| {
          assert s[i].id == players[i].id;
        }
      }
    }
  }

  /** On a roster without repeated ids, the role found for a player's id is
      that player's own role. */
  lemma {:induction false} RoleOfUnique(players: seq<Player>, j: nat)
    requires UniqueIds(players) && j < |players|
    ensures RoleOf(players, players[j].id) == players[j].role
  {
    var f := FirstIndex(players, (p: Player) => p.id == players[j].id);
    assert f.Some?;
    assert f.value == j;
  }

  /** Index of the first room whose roster holds `user`. */
  function RoomOf(rooms: seq<Room>, user: UserId): (r: Option<nat>)
    ensures r.Some? ==> r.value < |rooms| && InRoster(rooms[r.value].players, user)
    ensures r.Some? ==> forall j :: 0 <= j < r.value ==> !InRoster(rooms[j].players, user)
    ensures r.None? <==> forall j :: 0 <= j < |rooms| ==> !InRoster(rooms[j].players, user)
  {
    FirstIndex(rooms, (room: Room) => InRoster(room.players, user))
  }

  /** Every user sits in at most one room, and at most once in it. */
  ghost predicate OneRoomEach(rooms: seq<Room>) {
    && (forall i :: 0 <= i < |rooms| ==> UniqueIds(rooms[i].players))
    && (forall i, j, x :: 0 <= i < j < |rooms| && InRoster(rooms[i].players, x) ==> !InRoster(rooms[j].players, x))
  }

  /** No two rooms share a name. */
  predicate UniqueNames(rooms: seq<Room>) {
    forall i, j :: 0 <= i < j < |rooms| ==> rooms[i].name != rooms[j].name
  }
}
