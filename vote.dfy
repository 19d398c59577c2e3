/** The `/vote` command: who may vote in the running stage, how a vote
    replaces the voter's earlier one, and the "everyone has voted" test. */
module Voting {
  import opened Common
  import opened Db
  import StageEngine

  datatype VoteError =
    | RoomNotFound        // no room has the channel's name
    | NoStage             // the room has no stage yet
    | StageNotActive      // the last stage is not Playing
    | NoVoterRole         // the voter is not a player or has no role
    | VoterNotEligible    // the voter's role does not vote in this stage
    | TargetNotInRoom     // the chosen user is not a player of the room
    | NoTargetRole        // the chosen player has no role
    | TargetNotEligible   // the chosen player's role is not a target of this stage
    | QuorumEndFailed     // everyone had voted, and closing the stage failed

  /** The reply: "Voted changed to" when the voter had voted before. */
  datatype VoteReply = VoteReply(changed: bool)

  // ---------------------------------------------------------------------
  // Eligibility
  // ---------------------------------------------------------------------

  /** The role of `user` is defined and listed in `allowed`. */
  predicate RoleIn(players: seq<Player>, user: UserId, allowed: seq<RoleType>) {
    RoleOf(players, user).Some? && RoleOf(players, user).value in allowed
  }

  /** The checks of the command, in the order the command makes them, on
      the room's last stage; `None` when the vote is accepted. */
  function CheckVote(room: Room, voter: UserId, target: UserId): (r: Option<VoteError>)
    ensures r == Some(NoStage) <==> |room.stages| == 0
    ensures r == Some(StageNotActive) <==>
      |room.stages| > 0 && StageEngine.Last(room.stages).status != Playing
    ensures r == Some(NoVoterRole) || r == Some(VoterNotEligible) <==>
      |room.stages| > 0 && StageEngine.Last(room.stages).status == Playing
      && !RoleIn(room.players, voter, StageEngine.Last(room.stages).roles)
    ensures r == Some(TargetNotInRoom) || r == Some(NoTargetRole) || r == Some(TargetNotEligible) <==>
      |room.stages| > 0 && StageEngine.Last(room.stages).status == Playing
      && RoleIn(room.players, voter, StageEngine.Last(room.stages).roles)
      && !(HasPlayer(room, target) && RoleIn(room.players, target, StageEngine.Last(room.stages).targets))
    ensures r == Some(NoVoterRole) <==>
      |room.stages| > 0 && StageEngine.Last(room.stages).status == Playing
      && RoleOf(room.players, voter).None?
    ensures r == Some(VoterNotEligible) <==>
      |room.stages| > 0 && StageEngine.Last(room.stages).status == Playing
      && RoleOf(room.players, voter).Some? && RoleOf(room.players, voter).value !in StageEngine.Last(room.stages).roles
    ensures r == Some(TargetNotInRoom) <==>
      |room.stages| > 0 && StageEngine.Last(room.stages).status == Playing
      && RoleIn(room.players, voter, StageEngine.Last(room.stages).roles)
      && !HasPlayer(room, target)
    ensures r == Some(NoTargetRole) <==>
      |room.stages| > 0 && StageEngine.Last(room.stages).status == Playing
      && RoleIn(room.players, voter, StageEngine.Last(room.stages).roles)
      && HasPlayer(room, target) && RoleOf(room.players, target).None?
    ensures r == Some(TargetNotEligible) <==>
      |room.stages| > 0 && StageEngine.Last(room.stages).status == Playing
      && RoleIn(room.players, voter, StageEngine.Last(room.stages).roles)
      && HasPlayer(room, target) && RoleOf(room.players, target).Some?
      && RoleOf(room.players, target).value !in StageEngine.Last(room.stages).targets
    ensures r != Some(RoomNotFound) && r != Some(QuorumEndFailed)
    ensures r.None? <==>
      |room.stages| > 0 && StageEngine.Last(room.stages).status == Playing
      && RoleIn(room.players, voter, StageEngine.Last(room.stages).roles)
      && HasPlayer(room, target) && RoleIn(room.players, target, StageEngine.Last(room.stages).targets)
  {
    if |room.stages| == 0 then Some(NoStage)
    else
      var stage := StageEngine.Last(room.stages);
      if stage.status != Playing then Some(StageNotActive)
      else
        match RoleOf(room.players, voter)
        case None => Some(NoVoterRole)
        case Some(voterRole) =>
          if voterRole !in stage.roles then Some(VoterNotEligible)
          else if !HasPlayer(room, target) then Some(TargetNotInRoom)
          else
            match RoleOf(room.players, target)
            case None => Some(NoTargetRole)
            case Some(targetRole) =>
              if targetRole !in stage.targets then Some(TargetNotEligible) else None
  }

  /** On a roster without repeated ids, a vote is accepted exactly when the
      last stage is Playing, the voter has a player record whose role votes
      in it, and the target has a player record whose role it targets. */
  lemma {:induction false} EligibleByRecord(room: Room, voter: UserId, target: UserId)
    requires UniqueIds(room.players) && |room.stages| > 0
    ensures CheckVote(room, voter, target).None? <==>
      var stage := StageEngine.Last(room.stages);
      && stage.status == Playing
      && (exists j :: 0 <= j < |room.players| && room.players[j].id == voter
                      && room.players[j].role.Some? && room.players[j].role.value in stage.roles)
      && (exists k :: 0 <= k < |room.players| && room.players[k].id == target
                      && room.players[k].role.Some? && room.players[k].role.value in stage.targets)
  {
    var stage := StageEngine.Last(room.stages);
    var ps := room.players;
    forall j | 0 <= j < |ps|
      ensures RoleOf(ps, ps[j].id) == ps[j].role
    {
      RoleOfUnique(ps, j);
    }
    var fv := FirstIndex(ps, (p: Player) => p.id == voter);
    var ft := FirstIndex(ps, (p: Player) => p.id == target);
    if fv.Some? {
      assert ps[fv.value].id == voter;
    }
    if ft.Some? {
      assert ps[ft.value].id == target;
    }
  }

  // ---------------------------------------------------------------------
  // Replacing the voter's vote
  // ---------------------------------------------------------------------

  /** The ballots cast by `u`, in list order. */
  function From(votes: seq<Ballot>, u: UserId): seq<Ballot> {
    if |votes| == 0 then []
    else From(votes[..|votes| - 1], u) + (if votes[|votes| - 1].from == u then [votes[|votes| - 1]] else [])
  }

  /** `votes.filter(vote => vote.from !== voter)`. */
  function WithoutVoter(votes: seq<Ballot>, v: UserId): (r: seq<Ballot>)
    ensures |r| <= |votes|
    ensures forall k :: 0 <= k < |r| ==> r[k].from != v && r[k] in votes
  {
    if |votes| == 0 then []
    else WithoutVoter(votes[..|votes| - 1], v) + (if votes[|votes| - 1].from != v then [votes[|votes| - 1]] else [])
  }

  /** Appending a ballot of `v` is invisible once `v`'s ballots are filtered out;
      appending anybody else's ballot is kept. */
  lemma {:induction false} WithoutVoterSnoc(votes: seq<Ballot>, b: Ballot, v: UserId)
    ensures WithoutVoter(votes + [b], v) == WithoutVoter(votes, v) + (if b.from != v then [b] else [])
    ensures From(votes + [b], v) == From(votes, v) + (if b.from == v then [b] else [])
  {
    assert (votes + [b])[..|votes|] == votes;
  }

  /** Filtering out `v` removes all of `v`'s ballots and leaves the ballots of
      every other user as they were, in the same order. */
  lemma {:induction false} FromWithoutVoter(votes: seq<Ballot>, v: UserId, u: UserId)
    ensures From(WithoutVoter(votes, v), v) == []
    ensures u != v ==> From(WithoutVoter(votes, v), u) == From(votes, u)
  {
    if |votes| > 0 {
      var init, b := votes[..|votes| - 1], votes[|votes| - 1];
      FromWithoutVoter(init, v, u);
      var w := WithoutVoter(init, v);
      if b.from != v {
        assert WithoutVoter(votes, v) == w + [b];
        WithoutVoterSnoc(w, b, v);
        WithoutVoterSnoc(w, b, u);
      } else {
        assert WithoutVoter(votes, v) == w;
      }
    }
  }

  /** Filtering the same voter out twice is filtering once. */
  lemma {:induction false} WithoutVoterIdempotent(votes: seq<Ballot>, v: UserId)
    ensures WithoutVoter(WithoutVoter(votes, v), v) == WithoutVoter(votes, v)
  {
    if |votes| > 0 {
      var init, b := votes[..|votes| - 1], votes[|votes| - 1];
      WithoutVoterIdempotent(init, v);
      var w := WithoutVoter(init, v);
      if b.from != v {
        assert WithoutVoter(votes, v) == w + [b];
        WithoutVoterSnoc(w, b, v);
      } else {
        assert WithoutVoter(votes, v) == w;
      }
    }
  }

  /** The stored vote list after `voter` votes for `target`: the old list
      without the voter's ballots, followed by the new ballot. */
  function ReplaceVote(votes: seq<Ballot>, voter: UserId, target: UserId): (r: seq<Ballot>)
    ensures |r| > 0 && r[|r| - 1] == Ballot(voter, target)
    ensures From(r, voter) == [Ballot(voter, target)]
    ensures forall u :: u != voter ==> From(r, u) == From(votes, u)
    ensures WithoutVoter(r, voter) == WithoutVoter(votes, voter)
  {
    var kept := WithoutVoter(votes, voter);
    WithoutVoterSnoc(kept, Ballot(voter, target), voter);
    WithoutVoterIdempotent(votes, voter);
    FromWithoutVoter(votes, voter, voter);
    forall u | u != voter
      ensures From(kept + [Ballot(voter, target)], u) == From(votes, u)
    {
      FromWithoutVoter(votes, voter, u);
      WithoutVoterSnoc(kept, Ballot(voter, target), u);
    }
    kept + [Ballot(voter, target)]
  }

  /** Last write wins: a second vote of the same voter replaces the first,
      and voting twice for the same user is the same as voting once. */
  lemma {:induction false} LastVoteWins(votes: seq<Ballot>, voter: UserId, first: UserId, second: UserId)
    ensures ReplaceVote(ReplaceVote(votes, voter, first), voter, second) == ReplaceVote(votes, voter, second)
  {
    WithoutVoterSnoc(WithoutVoter(votes, voter), Ballot(voter, first), voter);
    WithoutVoterIdempotent(votes, voter);
  }

  /** A list in which every user has at most one ballot keeps that shape. */
  lemma {:induction false} ReplaceKeepsOneBallotEach(votes: seq<Ballot>, voter: UserId, target: UserId)
    requires forall u :: |From(votes, u)| <= 1
    ensures forall u :: |From(ReplaceVote(votes, voter, target), u)| <= 1
  {
    var r := ReplaceVote(votes, voter, target);
    forall u
      ensures |From(r, u)| <= 1
    {
      if u != voter {
        assert From(r, u) == From(votes, u);
      }
    }
  }

  // ---------------------------------------------------------------------
  // The "everyone has voted" test
  // ---------------------------------------------------------------------

  /** Some ballot of the list was cast by `u`. */
  predicate HasVoted(votes: seq<Ballot>, u: UserId) {
    exists i :: 0 <= i < |votes| && votes[i].from == u
  }

  /** Every player whose role is defined and votes in the stage has a ballot
      in `votes` (players without a role are skipped). */
  function AllVoted(players: seq<Player>, roles: seq<RoleType>, votes: seq<Ballot>): (r: bool)
    ensures r <==> forall j :: 0 <= j < |players| && players[j].role.Some? && players[j].role.value in roles
                               ==> HasVoted(votes, players[j].id)
  {
    if |players| == 0 then true
    else
      assert forall j :: 1 <= j < |players| ==> players[j] == players[1..][j - 1];
      (players[0].role.None? || players[0].role.value !in roles || HasVoted(votes, players[0].id))
      && AllVoted(players[1..], roles, votes)
  }

  /** A user has a ballot exactly when the user's ballots are not empty. */
  lemma {:induction false} HasVotedFrom(votes: seq<Ballot>, u: UserId)
    ensures HasVoted(votes, u) <==> From(votes, u) != []
    decreases |votes|
  {
    if |votes| > 0 {
      var init := votes[..|votes| - 1];
      HasVotedFrom(init, u);
      if HasVoted(init, u) {
        var n :| 0 <= n < |init| && init[n].from == u;
        assert votes[n].from == u;
      }
      if HasVoted(votes, u) && votes[|votes| - 1].from != u {
        var n :| 0 <= n < |votes| && votes[n].from == u;
        assert init[n].from == u;
      }
    }
  }

  /** After a vote the voter has a ballot, and every other user has one
      exactly when they had one before. */
  lemma {:induction false} ReplaceVoteVoters(votes: seq<Ballot>, voter: UserId, target: UserId)
    ensures HasVoted(ReplaceVote(votes, voter, target), voter)
    ensures forall u :: u != voter ==> (HasVoted(ReplaceVote(votes, voter, target), u) <==> HasVoted(votes, u))
  {
    var r := ReplaceVote(votes, voter, target);
    assert r[|r| - 1].from == voter;
    forall u | u != voter
      ensures HasVoted(r, u) <==> HasVoted(votes, u)
    {
      HasVotedFrom(r, u);
      HasVotedFrom(votes, u);
    }
  }

  /** With the voter's ballot written, everyone eligible has voted exactly
      when everyone eligible other than the voter had voted before. */
  lemma {:induction false} QuorumAfterVote(players: seq<Player>, roles: seq<RoleType>, votes: seq<Ballot>, voter: UserId, target: UserId)
    ensures AllVoted(players, roles, ReplaceVote(votes, voter, target)) <==>
      forall j :: 0 <= j < |players| && players[j].role.Some? && players[j].role.value in roles && players[j].id != voter
                  ==> HasVoted(votes, players[j].id)
  {
    ReplaceVoteVoters(votes, voter, target);
  }

  // ---------------------------------------------------------------------
  // The command
  // ---------------------------------------------------------------------

  /** The command on the store `rooms`: the outcome and the rooms afterwards.
      An accepted vote is written into the last stage of the room; the
      "everyone has voted" test then reads the ballots of that stage through
      the same store, so it sees the list just written. When it holds, the command goes on to close the
      stage, but passes the rooms list where the room is expected, so the
      closing fails after the vote was written. */
  function VoteSpec(rooms: seq<Room>, roomName: string, voter: UserId, target: UserId): (r: (Result<VoteReply, VoteError>, seq<Room>))
    ensures |r.1| == |rooms|
    ensures forall j :: 0 <= j < |rooms| && rooms[j].name != roomName ==> r.1[j] == rooms[j]
  {
    match FindRoom(rooms, roomName)
    case None => (Err(RoomNotFound), rooms)
    case Some(i) => VoteAt(rooms, i, voter, target, CheckVote(rooms[i], voter, target))
  }

  /** The vote in room `i` once the checks have given `check`: a rejection
      changes nothing; otherwise the ballot is written to the last stage,
      and the quorum test on the ballots as written decides the reply. */
  function VoteAt(rooms: seq<Room>, i: nat, voter: UserId, target: UserId, check: Option<VoteError>): (r: (Result<VoteReply, VoteError>, seq<Room>))
    requires i < |rooms| && (check.None? ==> |rooms[i].stages| > 0)
    ensures |r.1| == |rooms| && forall j :: 0 <= j < |rooms| && j != i ==> r.1[j] == rooms[j]
    ensures r.1[i].name == rooms[i].name && r.1[i].players == rooms[i].players && |r.1[i].stages| == |rooms[i].stages|
  {
    match check
    case Some(e) => (Err(e), rooms)
    case None =>
      var room := rooms[i];
      var k := |room.stages| - 1;
      var stage := room.stages[k];
      var stored := rooms[i := room.(stages := room.stages[k := stage.(votes := ReplaceVote(stage.votes, voter, target))])];
      if AllVoted(room.players, stage.roles, ReplaceVote(stage.votes, voter, target)) then (Err(QuorumEndFailed), stored)
      else (Ok(VoteReply(HasVoted(stage.votes, voter))), stored)
  }

  /** `execute` of `/vote`: the vote of `voter` for `target` in the room
      named after the channel's category. */
  method CastVote(db: MafiaDb, roomName: string, voter: UserId, target: UserId) returns (r: Result<VoteReply, VoteError>)
    modifies db
    ensures db.scenarios == old(db.scenarios)
    ensures (r, db.rooms) == VoteSpec(old(db.rooms), roomName, voter, target)
  {
    var found := FindRoom(db.rooms, roomName);
    if found.None? {
      return Err(RoomNotFound);
    }
    var i := found.value;
    var room := db.rooms[i];
    var check := CheckVote(room, voter, target);
    if check.Some? {
      return Err(check.value);
    }
    var k := |room.stages| - 1;
    var stage := room.stages[k];
    var alreadyVoted := HasVoted(stage.votes, voter);
    var votes := ReplaceVote(stage.votes, voter, target);
    db.rooms := db.rooms[i := room.(stages := room.stages[k := stage.(votes := votes)])];
    if AllVoted(room.players, stage.roles, votes) {
      return Err(QuorumEndFailed);
    }
    r := Ok(VoteReply(alreadyVoted));
  }

  /** A rejected vote leaves the store as it was; an accepted one changes
      only the ballots of the room's last stage, which become the old ballots
      with the voter's vote replaced, and the reply says "changed" exactly
      when the voter had voted before. */
  lemma {:induction false} VoteEffect(rooms: seq<Room>, roomName: string, voter: UserId, target: UserId)
    ensures
      var (r, after) := VoteSpec(rooms, roomName, voter, target);
      var stored := r.Ok? || r == Err(QuorumEndFailed);
      && (!stored ==> after == rooms)
      && (stored <==> FindRoom(rooms, roomName).Some? && CheckVote(rooms[FindRoom(rooms, roomName).value], voter, target).None?)
      && (stored ==>
            var i := FindRoom(rooms, roomName).value;
            var old_stages := rooms[i].stages;
            var k := |old_stages| - 1;
            && |after| == |rooms|
            && (forall j :: 0 <= j < |rooms| && j != i ==> after[j] == rooms[j])
            && after[i].name == rooms[i].name && after[i].players == rooms[i].players
            && after[i].status == rooms[i].status && after[i].scenario == rooms[i].scenario
            && |after[i].stages| == |old_stages|
            && (forall s :: 0 <= s < k ==> after[i].stages[s] == old_stages[s])
            && after[i].stages[k].votes == ReplaceVote(old_stages[k].votes, voter, target)
            && after[i].stages[k] == old_stages[k].(votes := after[i].stages[k].votes))
      && (r.Ok? ==> (r.value.changed <==>
            var i := FindRoom(rooms, roomName).value;
            exists b :: b in StageEngine.Last(rooms[i].stages).votes && b.from == voter))
  {
    var f := FindRoom(rooms, roomName);
    if f.Some? {
      var i := f.value;
      var check := CheckVote(rooms[i], voter, target);
      VoteAtEffect(rooms, i, voter, target, check);
      if check.None? {
        var votes := StageEngine.Last(rooms[i].stages).votes;
        if HasVoted(votes, voter) {
          var j :| 0 <= j < |votes| && votes[j].from == voter;
          assert votes[j] in votes;
        }
      }
    }
  }

  /** What a vote does in its room, whatever the checks gave: a rejection
      changes nothing; an accepted vote changes only the ballots of the
      room's last stage, to the old ballots with the voter's replaced, and
      answers "changed" exactly when the voter had a ballot. */
  lemma {:induction false} VoteAtEffect(rooms: seq<Room>, i: nat, voter: UserId, target: UserId, check: Option<VoteError>)
    requires i < |rooms| && (check.None? ==> |rooms[i].stages| > 0)
    ensures
      var (r, after) := VoteAt(rooms, i, voter, target, check);
      && (check.Some? ==> r == Err(check.value) && after == rooms)
      && (check.None? ==>
            var old_stages := rooms[i].stages;
            var k := |old_stages| - 1;
            && (r.Ok? || r == Err(QuorumEndFailed))
            && (r.Ok? ==> r.value.changed == HasVoted(old_stages[k].votes, voter))
            && |after| == |rooms|
            && (forall j :: 0 <= j < |rooms| && j != i ==> after[j] == rooms[j])
            && after[i].name == rooms[i].name && after[i].players == rooms[i].players
            && after[i].status == rooms[i].status && after[i].scenario == rooms[i].scenario
            && |after[i].stages| == |old_stages|
            && (forall s :: 0 <= s < k ==> after[i].stages[s] == old_stages[s])
            && after[i].stages[k].votes == ReplaceVote(old_stages[k].votes, voter, target)
            && after[i].stages[k] == old_stages[k].(votes := after[i].stages[k].votes))
  {
  }

  /** The test reads the stage's ballots after this vote was written: the
      closing is attempted exactly when every eligible player has a ballot
      in the stored list, that is, exactly when every eligible player other
      than the voter had one before. */
  lemma {:induction false} QuorumReadsNewBallots(rooms: seq<Room>, roomName: string, voter: UserId, target: UserId)
    requires FindRoom(rooms, roomName).Some?
    requires CheckVote(rooms[FindRoom(rooms, roomName).value], voter, target).None?
    ensures
      var i := FindRoom(rooms, roomName).value;
      var room := rooms[i];
      var stage := StageEngine.Last(room.stages);
      var (r, after) := VoteSpec(rooms, roomName, voter, target);
      && |after[i].stages| == |room.stages|
      && (r == Err(QuorumEndFailed) <==>
            forall j :: 0 <= j < |room.players| && room.players[j].role.Some? && room.players[j].role.value in stage.roles
                        ==> HasVoted(StageEngine.Last(after[i].stages).votes, room.players[j].id))
      && (r == Err(QuorumEndFailed) <==>
            forall j :: 0 <= j < |room.players| && room.players[j].role.Some? && room.players[j].role.value in stage.roles
                        && room.players[j].id != voter
                        ==> HasVoted(stage.votes, room.players[j].id))
  {
    var i := FindRoom(rooms, roomName).value;
    var room := rooms[i];
    var stage := StageEngine.Last(room.stages);
    var written := ReplaceVote(stage.votes, voter, target);
    assert VoteSpec(rooms, roomName, voter, target) == VoteAt(rooms, i, voter, target, None);
    assert StageEngine.Last(VoteSpec(rooms, roomName, voter, target).1[i].stages).votes == written;
    QuorumAfterVote(room.players, stage.roles, stage.votes, voter, target);
  }
}
