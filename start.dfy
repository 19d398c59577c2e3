/** The `/start` command: shuffle the room's players, deal the roles by
    position, tell every scenario role who holds it, and mark the room as
    Playing. */
module Start {
  import opened Common
  import opened Db

  datatype StartError = RoomNotFound

  // ---------------------------------------------------------------------
  // Dealing the roles
  // ---------------------------------------------------------------------

  /** `Math.round(n / 4)`, the number of killers: the integer nearest to
      n/4, halves rounded up. */
  function MafiaCount(n: nat): (m: nat)
    ensures 4 * m - 2 <= n < 4 * m + 2
  {
    (n + 2) / 4
  }

  /** The role dealt to the player at position `i` after the shuffle: the
      first player heals, the second investigates, the next `mafia` kill
      and everyone after them is innocent. */
  function RoleAt(i: nat, mafia: nat): (r: RoleType)
    ensures r == Healer <==> i == 0
    ensures r == Investigator <==> i == 1
    ensures r == Killer <==> 2 <= i < mafia + 2
    ensures r == Innocent <==> 2 <= i && mafia + 2 <= i
  {
    if i == 0 then Healer
    else if i == 1 then Investigator
    else if i < mafia + 2 then Killer
    else Innocent
  }

  /** The roster with every player given the role of its position. */
  function WithRoles(players: seq<Player>, mafia: nat): (r: seq<Player>)
    ensures |r| == |players|
    ensures forall i :: 0 <= i < |r| ==> r[i].id == players[i].id && r[i].role == Some(RoleAt(i, mafia))
  {
    seq(|players|, i requires 0 <= i < |players| => players[i].(role := Some(RoleAt(i, mafia))))
  }

  /** The `forEach` that assigns each player the role of its position, in place. */
  method AssignRoles(a: array<Player>, mafia: nat)
    modifies a
    ensures a[..] == WithRoles(old(a[..]), mafia)
  {
    var i := 0;
    while i < a.Length
      invariant 0 <= i <= a.Length
      invariant forall j :: 0 <= j < i ==> a[j] == old(a[j]).(role := Some(RoleAt(j, mafia)))
      invariant forall j :: i <= j < a.Length ==> a[j] == old(a[j])
    {
      a[i] := a[i].(role := Some(RoleAt(i, mafia)));
      i := i + 1;
    }
  }

  /** `perm` lists every position below `n` exactly once. */
  predicate IsPermutation(perm: seq<nat>, n: nat) {
    && |perm| == n
    && (forall i :: 0 <= i < n ==> perm[i] < n)
    && (forall i, j :: 0 <= i < j < n ==> perm[i] != perm[j])
    && (forall k :: 0 <= k < n ==> Hit(perm, k))
  }

  /** Some position of `perm` holds `k`. */
  predicate Hit(perm: seq<nat>, k: nat) {
    exists i :: 0 <= i < |perm| && perm[i] == k
  }

  /** The roster in shuffled order: position `i` holds the player that was at `perm[i]`. */
  function Permute(players: seq<Player>, perm: seq<nat>): (r: seq<Player>)
    requires IsPermutation(perm, |players|)
    ensures |r| == |players|
  {
    seq(|players|, i requires 0 <= i < |players| => players[perm[i]])
  }

  /** The shuffle, in place: the array is reordered as `perm` says. */
  method Shuffle(a: array<Player>, perm: seq<nat>)
    requires IsPermutation(perm, a.Length)
    modifies a
    ensures a[..] == Permute(old(a[..]), perm)
  {
    var before := a[..];
    var i := 0;
    while i < a.Length
      invariant 0 <= i <= a.Length
      invariant forall j :: 0 <= j < i ==> a[j] == before[perm[j]]
    {
      a[i] := before[perm[i]];
      i := i + 1;
    }
  }

  /** The shuffle only reorders: the same ids are present, and a roster
      without repeated ids stays without repeated ids. */
  lemma {:induction false} PermuteKeepsIds(players: seq<Player>, perm: seq<nat>)
    requires IsPermutation(perm, |players|)
    ensures forall x :: InRoster(Permute(players, perm), x) <==> InRoster(players, x)
    ensures UniqueIds(players) ==> UniqueIds(Permute(players, perm))
  {
    var r := Permute(players, perm);
    forall x
      ensures InRoster(r, x) <==> InRoster(players, x)
    {
      if j :| 0 <= j < |players| && players[j].id == x {
        assert Hit(perm, j);
        var i :| 0 <= i < |players| && perm[i] == j;
        assert r[i].id == x;
      }
    }
  }

  /** How many players of the roster hold role `t`. */
  function CountRole(players: seq<Player>, t: RoleType): nat {
    if |players| == 0 then 0
    else CountRole(players[..|players| - 1], t) + (if players[|players| - 1].role == Some(t) then 1 else 0)
  }

  /** The dealt roster of `n` players holds `min(mafia, max(0, n - 2))`
      Killers, one Healer when there is a player, one Investigator when
      there are two, and Innocents for the rest. */
  lemma {:induction false} RoleCounts(players: seq<Player>, mafia: nat)
    ensures var r, n := WithRoles(players, mafia), |players|;
      && CountRole(r, Killer) == Min(mafia, Max(0, n - 2))
      && CountRole(r, Healer) == (if n >= 1 then 1 else 0)
      && CountRole(r, Investigator) == (if n >= 2 then 1 else 0)
      && CountRole(r, Innocent) == Max(0, n - mafia - 2)
  {
    var n := |players|;
    if n > 0 {
      var init := players[..n - 1];
      RoleCounts(init, mafia);
      assert WithRoles(players, mafia)[..n - 1] == WithRoles(init, mafia);
    }
  }

  /** Every player of the dealt roster has a role. */
  lemma {:induction false} EveryoneHasARole(players: seq<Player>, mafia: nat)
    ensures forall i :: 0 <= i < |players| ==> WithRoles(players, mafia)[i].role.Some?
    ensures CountRole(WithRoles(players, mafia), Killer) + CountRole(WithRoles(players, mafia), Healer)
            + CountRole(WithRoles(players, mafia), Investigator) + CountRole(WithRoles(players, mafia), Innocent)
            == |players|
  {
    RoleCounts(players, mafia);
  }

  // ---------------------------------------------------------------------
  // Announcing the roles
  // ---------------------------------------------------------------------

  /** The ids of the players holding role `t`, in roster order: the members
      let into that role's channel. */
  function Audience(players: seq<Player>, t: RoleType): (r: seq<UserId>)
    ensures forall x :: x in r <==> exists j :: 0 <= j < |players| && players[j].id == x && players[j].role == Some(t)
    ensures |r| == CountRole(players, t)
  {
    if |players| == 0 then []
    else
      var init, p := players[..|players| - 1], players[|players| - 1];
      assert forall j :: 0 <= j < |players| - 1 ==> players[j] == init[j];
      Audience(init, t) + (if p.role == Some(t) then [p.id] else [])
  }

  /** What is said about one scenario role: its text goes to the room's
      general channel for the Innocent role (`audience` is `None`), and
      otherwise to a role channel opened to the players holding that role. */
  datatype Announcement = Announcement(role: Role, audience: Option<seq<UserId>>)

  function Announce(role: Role, players: seq<Player>): (r: Announcement)
    ensures r.role == role
    ensures r.audience.None? <==> role.roleType == Innocent
    ensures r.audience.Some? ==> forall x :: x in r.audience.value <==>
      exists j :: 0 <= j < |players| && players[j].id == x && players[j].role == Some(role.roleType)
  {
    if role.roleType == Innocent then Announcement(role, None)
    else Announcement(role, Some(Audience(players, role.roleType)))
  }

  /** One announcement per scenario role, in scenario order. */
  function Announcements(roles: seq<Role>, players: seq<Player>): (r: seq<Announcement>)
    ensures |r| == |roles|
    ensures forall k :: 0 <= k < |roles| ==> r[k] == Announce(roles[k], players)
  {
    if |roles| == 0 then [] else Announcements(roles[..|roles| - 1], players) + [Announce(roles[|roles| - 1], players)]
  }

  // ---------------------------------------------------------------------
  // The command
  // ---------------------------------------------------------------------

  /** The command on the store: the roster is shuffled by `perm` and dealt;
      then, once per scenario role, the roster and the Playing status are
      written back. A scenario without roles therefore writes nothing. */
  function StartSpec(rooms: seq<Room>, roomName: string, perm: seq<nat>): (r: (Result<seq<Announcement>, StartError>, seq<Room>))
    requires FindRoom(rooms, roomName).Some? ==> IsPermutation(perm, |rooms[FindRoom(rooms, roomName).value].players|)
    ensures |r.1| == |rooms|
    ensures forall j :: 0 <= j < |rooms| && rooms[j].name != roomName ==> r.1[j] == rooms[j]
  {
    match FindRoom(rooms, roomName)
    case None => (Err(RoomNotFound), rooms)
    case Some(i) =>
      var room := rooms[i];
      var dealt := WithRoles(Permute(room.players, perm), MafiaCount(|room.players|));
      var roles := room.scenario.roles;
      (Ok(Announcements(roles, dealt)),
       if |roles| == 0 then rooms else rooms[i := room.(players := dealt, status := Playing)])
  }

  /** The roster sorted into the random order, then dealt its roles, on an
      array as `forEach` does it. */
  method Deal(players: seq<Player>, perm: seq<nat>) returns (dealt: seq<Player>)
    requires IsPermutation(perm, |players|)
    ensures dealt == WithRoles(Permute(players, perm), MafiaCount(|players|))
  {
    var a := new Player[|players|](j requires 0 <= j < |players| => players[j]);
    assert a[..] == players;
    Shuffle(a, perm);
    AssignRoles(a, MafiaCount(|players|));
    dealt := a[..];
  }

  /** `execute` of `/start` on the room named `roomName`, with `perm` the
      order the random sort produced. */
  method StartGame(db: MafiaDb, roomName: string, perm: seq<nat>) returns (r: Result<seq<Announcement>, StartError>)
    requires FindRoom(db.rooms, roomName).Some? ==> IsPermutation(perm, |db.rooms[FindRoom(db.rooms, roomName).value].players|)
    modifies db
    ensures db.scenarios == old(db.scenarios)
    ensures (r, db.rooms) == StartSpec(old(db.rooms), roomName, perm)
  {
    var found := FindRoom(db.rooms, roomName);
    if found.None? {
      return Err(RoomNotFound);
    }
    var i := found.value;
    var room := db.rooms[i];
    var roles := room.scenario.roles;
    var players := Deal(room.players, perm);
    var said := AnnounceRoles(db, i, roles, players);
    r := Ok(said);
  }

  /** The loop over the scenario's roles: each role is announced, and on each
      pass the dealt roster and the Playing status are written to room `i`. */
  method AnnounceRoles(db: MafiaDb, i: nat, roles: seq<Role>, players: seq<Player>) returns (said: seq<Announcement>)
    requires i < |db.rooms|
    modifies db
    ensures said == Announcements(roles, players)
    ensures db.scenarios == old(db.scenarios)
    ensures db.rooms == if |roles| == 0 then old(db.rooms) else old(db.rooms)[i := old(db.rooms)[i].(players := players, status := Playing)]
  {
    ghost var before := db.rooms;
    ghost var started := before[i].(players := players, status := Playing);
    said := [];
    var k := 0;
    while k < |roles|
      invariant 0 <= k <= |roles|
      invariant said == Announcements(roles[..k], players)
      invariant db.scenarios == old(db.scenarios)
      invariant db.rooms == if k == 0 then before else before[i := started]
    {
      assert roles[..k + 1][..k] == roles[..k] && roles[..k + 1][k] == roles[k];
      assert Announcements(roles[..k + 1], players) == said + [Announce(roles[k], players)];
      said := said + [Announce(roles[k], players)];
      var stored := db.rooms[i];
      assert stored.(players := players, status := Playing) == started;
      db.rooms := db.rooms[i := stored.(players := players)];
      stored := db.rooms[i];
      db.rooms := db.rooms[i := stored.(status := Playing)];
      assert db.rooms == before[i := started];
      k := k + 1;
    }
    assert roles[..|roles|] == roles;
  }

  /** After a start on a scenario with roles, the room is Playing and its
      roster is the shuffled roster with the positional roles: position 0
      Healer, 1 Investigator, the next `MafiaCount` Killers, then Innocents;
      no id is lost or added; and every non-Innocent role is announced to
      exactly the players who hold it. */
  lemma {:induction false} StartDeals(rooms: seq<Room>, roomName: string, perm: seq<nat>)
    requires FindRoom(rooms, roomName).Some?
    requires IsPermutation(perm, |rooms[FindRoom(rooms, roomName).value].players|)
    requires |rooms[FindRoom(rooms, roomName).value].scenario.roles| > 0
    ensures
      var i := FindRoom(rooms, roomName).value;
      var room := rooms[i];
      var (r, after) := StartSpec(rooms, roomName, perm);
      var ps := after[i].players;
      var n := |room.players|;
      && |after| == |rooms| && (forall j :: 0 <= j < |rooms| && j != i ==> after[j] == rooms[j])
      && after[i] == room.(players := ps, status := Playing)
      && |ps| == n
      && (forall j :: 0 <= j < n ==> ps[j].id == room.players[perm[j]].id && ps[j].role == Some(RoleAt(j, MafiaCount(n))))
      && (forall x :: InRoster(ps, x) <==> InRoster(room.players, x))
      && CountRole(ps, Killer) == Min(MafiaCount(n), Max(0, n - 2))
      && (r.Ok? && forall k :: 0 <= k < |r.value| && r.value[k].audience.Some? ==>
            forall x :: x in r.value[k].audience.value <==>
              exists j :: 0 <= j < n && ps[j].id == x && ps[j].role == Some(r.value[k].role.roleType))
  {
    var i := FindRoom(rooms, roomName).value;
    var room := rooms[i];
    var shuffled := Permute(room.players, perm);
    PermuteKeepsIds(room.players, perm);
    RoleCounts(shuffled, MafiaCount(|room.players|));
  }

  /** A scenario without roles leaves the store untouched: the room never
      becomes Playing. */
  lemma {:induction false} NoRolesNoStart(rooms: seq<Room>, roomName: string, perm: seq<nat>)
    requires FindRoom(rooms, roomName).Some?
    requires IsPermutation(perm, |rooms[FindRoom(rooms, roomName).value].players|)
    requires rooms[FindRoom(rooms, roomName).value].scenario.roles == []
    ensures StartSpec(rooms, roomName, perm).1 == rooms
    ensures StartSpec(rooms, roomName, perm).0 == Ok([])
  {
  }
}
