/** The two pieces of logic in the helper file: splitting a list into chunks,
    and deciding which text channel of a room a message goes to. */
module Utils {
  import opened Common
  import opened Db

  /** Concatenation of a list of lists. */
  function Flatten<T>(chunks: seq<seq<T>>): seq<T> {
    if |chunks| == 0 then [] else Flatten(chunks[..|chunks| - 1]) + chunks[|chunks| - 1]
  }

  /** `chunk(array, size)`: cut `a` into consecutive slices of `size`
      elements; only the last slice may be shorter. The loop advances by
      `size`, so it terminates only for a positive size. */
  method Chunk<T>(a: seq<T>, size: nat) returns (chunks: seq<seq<T>>)
    requires size > 0
    ensures Flatten(chunks) == a
    ensures forall k :: 0 <= k < |chunks| - 1 ==> |chunks[k]| == size
    ensures forall k :: 0 <= k < |chunks| ==> 1 <= |chunks[k]| <= size
    ensures size * (|chunks| - 1) < |a| <= size * |chunks| || (a == [] && chunks == [])
  {
    chunks := [];
    var index := 0;
    while index < |a|
      invariant index == size * |chunks|
      invariant Flatten(chunks) == a[..Min(index, |a|)]
      invariant forall k :: 0 <= k < |chunks| - 1 ==> |chunks[k]| == size
      invariant forall k :: 0 <= k < |chunks| ==> 1 <= |chunks[k]| <= size
      invariant |chunks| > 0 ==> size * (|chunks| - 1) < |a|
      invariant |chunks| > 0 && index < |a| ==> |chunks[|chunks| - 1]| == size
      decreases |a| - index
    {
      var piece := a[index..Min(size + index, |a|)];
      assert (chunks + [piece])[..|chunks|] == chunks;
      assert a[..Min(size + index, |a|)] == a[..index] + piece;
      chunks := chunks + [piece];
      index := index + size;
    }
    assert a[..Min(index, |a|)] == a;
  }

  datatype RouteError = RoomNotFound

  /** The channel name chosen inside `getChannel` for a room playing
      `scenario`: the room's "general" channel when no role list is given or
      the list holds Innocent; otherwise the channel of the first scenario
      role (in scenario order) whose type is listed. When no scenario role
      matches, the source formats the undefined name, giving "role-undefined". */
  function ChannelFor(scenario: Scenario, roles: Option<seq<RoleType>>): (channel: string)
    ensures channel == "general" <==> roles.None? || Innocent in roles.value
    ensures channel != "general" ==>
      match FirstIndex(scenario.roles, (r: Role) => r.roleType in roles.value)
      case Some(k) =>
        scenario.roles[k].roleType in roles.value && channel == "role-" + Lower(scenario.roles[k].name)
      case None =>
        (forall k :: 0 <= k < |scenario.roles| ==> scenario.roles[k].roleType !in roles.value)
        && channel == "role-undefined"
  {
    if roles.None? || Innocent in roles.value then "general"
    else
      match FirstIndex(scenario.roles, (r: Role) => r.roleType in roles.value)
      case Some(k) =>
        var c := "role-" + Lower(scenario.roles[k].name);
        assert c[0] == 'r';
        c
      case None => "role-undefined"
  }

  /** The routing rule of `getChannel`: the room must exist in the store. */
  function Route(rooms: seq<Room>, roomName: string, roles: Option<seq<RoleType>>): (r: Result<string, RouteError>)
    ensures r.Err? <==> forall j :: 0 <= j < |rooms| ==> rooms[j].name != roomName
    ensures r.Ok? ==> exists j :: 0 <= j < |rooms| && rooms[j].name == roomName && r.value == ChannelFor(rooms[j].scenario, roles)
                                 && (forall k :: 0 <= k < j ==> rooms[k].name != roomName)
  {
    match FindRoom(rooms, roomName)
    case None => Err(RoomNotFound)
    case Some(j) => Ok(ChannelFor(rooms[j].scenario, roles))
  }

  /** The same search with two predicates that agree everywhere finds the same index. */
  lemma {:induction false} FirstIndexAgrees<T>(s: seq<T>, p: T -> bool, q: T -> bool)
    requires forall x :: p(x) == q(x)
    ensures FirstIndex(s, p) == FirstIndex(s, q)
  {
    var a, b := FirstIndex(s, p), FirstIndex(s, q);
    if a.Some? && b.Some? {
      assert p(s[b.value]);
      assert q(s[a.value]);
    }
  }

  /** Routing depends only on which role types are listed, not on their order
      or repetitions. */
  lemma {:induction false} RouteIgnoresRoleOrder(scenario: Scenario, rs1: seq<RoleType>, rs2: seq<RoleType>)
    requires forall t :: t in rs1 <==> t in rs2
    ensures ChannelFor(scenario, Some(rs1)) == ChannelFor(scenario, Some(rs2))
  {
    FirstIndexAgrees(scenario.roles, (r: Role) => r.roleType in rs1, (r: Role) => r.roleType in rs2);
  }
}
