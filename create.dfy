/** The `/create` command: a new waiting room with a catalogued scenario,
    under a name no room has yet. */
module Create {
  import opened Common
  import opened Db

  datatype CreateError =
    | RoomExists(name: string)       // a room already has this name
    | NoScenario(name: string)       // the catalog has no scenario of this name

  /** The text of the welcome message: the stage names in scenario order
      joined by " -> ", and one line per role with its abilities. */
  datatype Welcome = Welcome(stages: string, roles: string)

  /** The first catalogued scenario called `name`. */
  function FindScenario(scenarios: seq<Scenario>, name: string): (r: Option<nat>)
    ensures r.Some? ==> r.value < |scenarios| && scenarios[r.value].name == name
    ensures r.Some? ==> forall j :: 0 <= j < r.value ==> scenarios[j].name != name
    ensures r.None? <==> forall j :: 0 <= j < |scenarios| ==> scenarios[j].name != name
  {
    FirstIndex(scenarios, (s: Scenario) => s.name == name)
  }

  function StageNames(stages: seq<StageScenario>): (r: seq<string>)
    ensures |r| == |stages| && forall k :: 0 <= k < |stages| ==> r[k] == stages[k].name
  {
    seq(|stages|, k requires 0 <= k < |stages| => stages[k].name)
  }

  function AbilityNames(abilities: seq<Ability>): seq<string> {
    seq(|abilities|, k requires 0 <= k < |abilities| => abilities[k].name)
  }

  /** One line of the roles field: the role's name, " - ", then its ability
      names separated by ", " (nothing after the dash without abilities). */
  function RoleLine(role: Role): (r: string)
    ensures |r| >= |role.name| + 3 && r[..|role.name| + 3] == role.name + " - "
    ensures |role.abilities| == 0 ==> r == role.name + " - "
    ensures |role.abilities| > 0 ==>
      var first := role.abilities[0].name;
      && |r| == |role.name| + 3 + TotalLength(AbilityNames(role.abilities)) + 2 * (|role.abilities| - 1)
      && |r| >= |role.name| + 3 + |first|
      && r[|role.name| + 3..|role.name| + 3 + |first|] == first
  {
    var names := AbilityNames(role.abilities);
    var prefix := role.name + " - ";
    if |names| > 0 then
      JoinStartsWithFirst(names, ", ");
      JoinLength(names, ", ");
      assert (|names| - 1) * |", "| == 2 * (|names| - 1);
      var joined := JoinStrings(names, ", ");
      assert (prefix + joined)[|prefix|..|prefix| + |names[0]|] == joined[..|names[0]|];
      prefix + joined
    else
      prefix + JoinStrings(names, ", ")
  }

  function RoleLines(roles: seq<Role>): (r: seq<string>)
    ensures |r| == |roles| && forall k :: 0 <= k < |roles| ==> r[k] == RoleLine(roles[k])
  {
    seq(|roles|, k requires 0 <= k < |roles| => RoleLine(roles[k]))
  }

  /** The welcome text: an empty field for a scenario without stages or
      without roles, the stage's own name for a single stage and the role's
      own line for a single role (`RoleSummary` and `StageSummary` give the
      general shape). */
  function WelcomeFor(scenario: Scenario): (r: Welcome)
    ensures |scenario.stages| == 0 ==> r.stages == ""
    ensures |scenario.stages| == 1 ==> r.stages == scenario.stages[0].name
    ensures |scenario.roles| == 0 ==> r.roles == ""
    ensures |scenario.roles| == 1 ==> r.roles == RoleLine(scenario.roles[0])
  {
    Welcome(JoinStrings(StageNames(scenario.stages), " -> "), JoinStrings(RoleLines(scenario.roles), "\n"))
  }

  /** The command on the store. */
  function CreateSpec(rooms: seq<Room>, scenarios: seq<Scenario>, roomName: string, scenarioName: string): (r: (Result<Welcome, CreateError>, seq<Room>))
    ensures |r.1| >= |rooms| && r.1[..|rooms|] == rooms
  {
    if FindRoom(rooms, roomName).Some? then (Err(RoomExists(roomName)), rooms)
    else
      match FindScenario(scenarios, scenarioName)
      case None => (Err(NoScenario(scenarioName)), rooms)
      case Some(k) =>
        var scenario := scenarios[k];
        (Ok(WelcomeFor(scenario)), rooms + [Room(roomName, scenario, [], [], Waiting)])
  }

  /** `execute` of `/create`. */
  method CreateRoom(db: MafiaDb, roomName: string, scenarioName: string) returns (r: Result<Welcome, CreateError>)
    modifies db
    ensures db.scenarios == old(db.scenarios)
    ensures (r, db.rooms) == CreateSpec(old(db.rooms), old(db.scenarios), roomName, scenarioName)
  {
    if FindRoom(db.rooms, roomName).Some? {
      return Err(RoomExists(roomName));
    }
    var found := FindScenario(db.scenarios, scenarioName);
    if found.None? {
      return Err(NoScenario(scenarioName));
    }
    var scenario := db.scenarios[found.value];
    db.rooms := db.rooms + [Room(roomName, scenario, [], [], Waiting)];
    r := Ok(WelcomeFor(scenario));
  }

  /** A room is added exactly when the name is free and the scenario is
      catalogued; it then comes last, empty and waiting, with the first
      scenario of that name, and the rooms before it are unchanged. */
  lemma {:induction false} CreateEffect(rooms: seq<Room>, scenarios: seq<Scenario>, roomName: string, scenarioName: string)
    ensures
      var (r, after) := CreateSpec(rooms, scenarios, roomName, scenarioName);
      && (r.Ok? <==> (forall j :: 0 <= j < |rooms| ==> rooms[j].name != roomName)
                     && exists k :: 0 <= k < |scenarios| && scenarios[k].name == scenarioName)
      && (r.Err? ==> after == rooms)
      && (r == Err(RoomExists(roomName)) <==> exists j :: 0 <= j < |rooms| && rooms[j].name == roomName)
      && (r.Ok? ==>
            && |after| == |rooms| + 1 && after[..|rooms|] == rooms
            && after[|rooms|].name == roomName && after[|rooms|].players == [] && after[|rooms|].stages == []
            && after[|rooms|].status == Waiting
            && after[|rooms|].scenario.name == scenarioName && after[|rooms|].scenario in scenarios)
      && (r.Ok? ==>
            exists k :: 0 <= k < |scenarios| && after[|rooms|].scenario == scenarios[k]
                        && forall j :: 0 <= j < k ==> scenarios[j].name != scenarioName)
  {
    var (r, after) := CreateSpec(rooms, scenarios, roomName, scenarioName);
    if r.Ok? {
      assert after[..|rooms|] == rooms;
      var k := FindScenario(scenarios, scenarioName).value;
      assert after[|rooms|].scenario == scenarios[k];
    }
  }

  /** Creating rooms keeps room names unique. */
  lemma {:induction false} CreateKeepsNamesUnique(rooms: seq<Room>, scenarios: seq<Scenario>, roomName: string, scenarioName: string)
    requires UniqueNames(rooms)
    ensures UniqueNames(CreateSpec(rooms, scenarios, roomName, scenarioName).1)
  {
  }

  /** A joined list starts with its first part. */
  lemma {:induction false} JoinStartsWithFirst(parts: seq<string>, sep: string)
    requires |parts| > 0
    ensures |JoinStrings(parts, sep)| >= |parts[0]|
    ensures JoinStrings(parts, sep)[..|parts[0]|] == parts[0]
  {
    if |parts| > 1 {
      var init := parts[..|parts| - 1];
      JoinStartsWithFirst(init, sep);
      var j := JoinStrings(init, sep);
      assert JoinStrings(parts, sep) == j + sep + parts[|parts| - 1];
      assert (j + sep + parts[|parts| - 1])[..|parts[0]|] == j[..|parts[0]|];
    }
  }

  /** Joining from the front: the first part, one separator, then the rest
      joined (the left-to-right reading of `Array.prototype.join`). */
  lemma {:induction false} JoinFront(x: string, parts: seq<string>, sep: string)
    requires |parts| > 0
    ensures JoinStrings([x] + parts, sep) == x + sep + JoinStrings(parts, sep)
  {
    var n := |parts|;
    var s := [x] + parts;
    if n == 1 {
      assert s[..|s| - 1] == [x];
    } else {
      var init := parts[..n - 1];
      assert s[..|s| - 1] == [x] + init;
      JoinFront(x, init, sep);
      assert JoinStrings(s, sep) == (x + sep + JoinStrings(init, sep)) + sep + parts[n - 1];
    }
  }

  /** The length of a joined list: every part plus one separator between
      each two parts. */
  lemma {:induction false} JoinLength(parts: seq<string>, sep: string)
    requires |parts| > 0
    ensures |JoinStrings(parts, sep)| == TotalLength(parts) + (|parts| - 1) * |sep|
  {
    var n := |parts|;
    var init := parts[..n - 1];
    assert TotalLength(parts) == TotalLength(init) + |parts[n - 1]|;
    if n > 1 {
      JoinLength(init, sep);
      assert |JoinStrings(parts, sep)| == |JoinStrings(init, sep)| + |sep| + |parts[n - 1]|;
      assert (n - 1) * |sep| == (n - 2) * |sep| + |sep|;
    } else {
      assert TotalLength(init) == 0;
    }
  }

  function TotalLength(parts: seq<string>): nat {
    if |parts| == 0 then 0 else TotalLength(parts[..|parts| - 1]) + |parts[|parts| - 1]|
  }

  /** The stage summary opens with the first stage's name, has one " -> "
      between each two stage names, and is empty for a scenario without
      stages. */
  lemma {:induction false} StageSummary(scenario: Scenario)
    ensures |scenario.stages| == 0 ==> WelcomeFor(scenario).stages == ""
    ensures |scenario.stages| > 0 ==>
      var names := StageNames(scenario.stages);
      && |WelcomeFor(scenario).stages| >= |names[0]|
      && WelcomeFor(scenario).stages[..|names[0]|] == scenario.stages[0].name
      && |WelcomeFor(scenario).stages| == TotalLength(names) + 4 * (|names| - 1)
    ensures |scenario.stages| == 1 ==> WelcomeFor(scenario).stages == scenario.stages[0].name
    ensures |scenario.stages| > 1 ==>
      WelcomeFor(scenario).stages == scenario.stages[0].name + " -> " + JoinStrings(StageNames(scenario.stages[1..]), " -> ")
  {
    if |scenario.stages| > 0 {
      var names := StageNames(scenario.stages);
      JoinStartsWithFirst(names, " -> ");
      JoinLength(names, " -> ");
      if |scenario.stages| > 1 {
        assert names == [scenario.stages[0].name] + StageNames(scenario.stages[1..]);
        JoinFront(scenario.stages[0].name, StageNames(scenario.stages[1..]), " -> ");
      }
    }
  }

  /** The roles field opens with the first role's line and holds every
      role's line, with one newline between each two. */
  lemma {:induction false} RoleSummary(scenario: Scenario)
    requires |scenario.roles| > 0
    ensures
      var lines := RoleLines(scenario.roles);
      var text := WelcomeFor(scenario).roles;
      && |text| == TotalLength(lines) + |lines| - 1
      && |text| >= |lines[0]| && text[..|lines[0]|] == RoleLine(scenario.roles[0])
  {
    var lines := RoleLines(scenario.roles);
    JoinStartsWithFirst(lines, "\n");
    JoinLength(lines, "\n");
    assert (|lines| - 1) * |"\n"| == |lines| - 1;
  }
}
