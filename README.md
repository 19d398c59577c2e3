# mafiabot game engine in Dafny

mafiabot is a Discord bot that runs games of "mafia". Rooms are created
with a scenario, players join and leave, and `/start` deals the roles.
After that, `/stage` moves the game through a fixed cycle of stages: Kill,
Heal, Investigate, then Vote, one cycle per day. During a stage the
players whose role votes in it cast votes with `/vote`, and closing the
stage turns those votes into a result.

This project models the game logic behind those commands. All Discord work
is stripped away; what remains acts on the store of rooms.

- **Store** (`db.dfy`, module `Db`): the records of a room (players, stages,
  scenario, status) and the store object `MafiaDb`. The source keeps rooms
  in two ways: one `/rooms` list for some commands, one file per room for
  others. Both are modelled by the one `rooms` sequence of `MafiaDb`. "The
  file of room N" is the first room named N. A stage carries a `votes`
  list. The record declaration in `src/db.ts` does not list that field, but
  the commands read and write it.
- **Stage engine** (`stage.dfy`, module `StageEngine`):
  - the successor of a stage type and the day counter;
  - the night report;
  - the vote tally and the result, which is the unique user with the most
    votes, if there is one;
  - the Heal and Investigate verdicts;
  - `endStage`, `nextStage` and the `/stage` command;
  - the reaction tally, a class whose map field is updated in place by the
    collect and remove handlers.
- **Vote casting** (`vote.dfy`, module `Voting`): the eligibility checks in
  source order, and the replacement of the voter's ballot (the last vote
  wins). It also has the "everyone eligible has voted" test. The command
  reads `stage` from the same `node-json-db` instance it then writes the new
  ballot list through. That library hands out references into its
  in-memory data, so the test sees the list just written, this vote
  included. When the test holds, the
  command calls `endStage` with four arguments where three are expected.
  The parameters shift, so `endStage` receives the room where it expects
  the stage. A room has no `votes`, so the call fails. The model stores the
  vote and then returns `QuorumEndFailed`.
- **Role assignment** (`start.dfy`, module `Start`):
  - the random sort is an arbitrary permutation given as input;
  - the shuffle and the role dealing are in-place loops over an array;
  - `round(n/4)` killers;
  - one announcement per scenario role, with its audience;
  - the roster and status are written once per scenario role, so a
    scenario without roles never starts.
- **Roster and rooms** (`join.dfy`, `leave.dfy`, `create.dfy`):
  - joining by upper-cased name, or into a waiting room with the fewest
    players;
  - leaving the first room that holds the user, whatever its status;
  - creating a room under a fresh name with a catalogued scenario.
- **Helpers** (`utils.dfy`, module `Utils`): `chunk`, as a `while` loop
  proved against concatenation, and the channel-routing rule of
  `getChannel`. Shared helpers are in `common.dfy`: options, results, the
  first-match search behind `find` and `findIndex`, ASCII case mapping, and
  joining strings.

Each command is a method on `MafiaDb`. Its `ensures` ties the reply and
the new store to a specification function of the old store. The lemmas
beside each one state what the source promises about that function.

## Model

| member | source | states |
|---|---|---|
| `Db.FindRoom` | src/commands/vote.ts:24-26 | the index of the first room with the name; none exactly when no room has it |
| `Db.RoleOf` | src/commands/vote.ts:32-34 | the role of the first player record with that id (none when that record has no role); none when no record has the id |
| `Db.RoleOfUnique` | src/commands/vote.ts:32-34 | with no repeated ids, the role looked up for a player's id is that player's own role |
| `Db.RosterSnoc` | src/commands/join.ts:51-54 | appending a player adds exactly its id to the roster's ids, and keeps ids unique exactly when that id was absent |
| `Db.RoomOf` | src/commands/join.ts:20-22 | the first room whose roster holds the user; none exactly when no roster holds the user |
| `Common.FirstIndex` | src/utils.ts:98 | the index of the first element that passes the test; none exactly when no element passes |
| `Common.Upper` | src/commands/join.ts:25 | upper-casing keeps the length and maps every character through ASCII upper-casing |
| `Common.Lower` | src/utils.ts:114 | lower-casing keeps the length and maps every character through ASCII lower-casing |
| `Utils.Chunk` | src/utils.ts:66-74 | the chunks concatenate back to the input; all chunks but the last have `size` elements; every chunk has 1 to `size` elements; there are ceil(len/size) chunks and none for an empty input; `size > 0` is required for termination |
| `Utils.ChannelFor` | src/utils.ts:101-118 | "general" exactly when no roles are given or Innocent is among them; otherwise "role-" plus the lower-cased name of the first scenario role whose type is listed, or "role-undefined" when none is |
| `Utils.Route` | src/utils.ts:97-118 | an error exactly when no room has the name; otherwise the channel of the scenario of the first room with that name |
| `Utils.RouteIgnoresRoleOrder` | src/utils.ts:109-111 | the route depends only on which role types are listed, not on their order or repetition |
| `StageEngine.IndexOf` | src/db.ts:10-15 | the position of a stage type in the declaration order |
| `StageEngine.NextStageType` | src/commands/stage.ts:125-132 | no current stage gives Kill; otherwise the next type in the cyclic declaration order, never the current one |
| `StageEngine.NextStageTypeCycle` | src/commands/stage.ts:125-132 | Kill → Heal → Investigate → Vote → Kill; an empty history behaves like Vote; four steps return to the start |
| `StageEngine.NextDay` | src/commands/stage.ts:139-140 | the current day (1 without a current stage, and also when the current day is 0), plus one exactly when the new stage is a Vote; never smaller than the current day |
| `StageEngine.RunCycle` | src/commands/stage.ts:125-140 | cycle q of a run from an empty history opens Kill, Heal, Investigate on day q+1 and Vote on day q+2 |
| `StageEngine.RunShape` | src/commands/stage.ts:129-140 | from an empty history, the k-th opened stage has type `order[k mod 4]` and day `1 + (k+1)/4`: Kill, Heal, Investigate on day 1, Vote on day 2, … |
| `StageEngine.RunDays` | src/commands/stage.ts:139-140 | successive opened stages never go back a day, and they advance exactly at a Vote |
| `StageEngine.DayResult` | src/commands/stage.ts:144-153 | the result of the first stage of that day and type; none when no stage has that day and type |
| `StageEngine.NightReportFor` | src/commands/stage.ts:143-166 | a report exactly when the day changes and the new day is not 1; it covers the day before; "everyone safe" exactly when that day has no kill result; "saved" exactly when the heal result equals the kill result |
| `StageEngine.ReportExactlyWhenVoteOpens` | src/commands/stage.ts:129-166 | a night report is posted exactly when a Vote stage opens after an existing stage |
| `StageEngine.Count` | src/commands/stage.ts:31-35 | the number of ballots for a user is at most the number of ballots |
| `StageEngine.CountInAt` | src/commands/stage.ts:31-35 | in a record with distinct targets, a target's number is its entry's count |
| `StageEngine.CountInAbsent` | src/commands/stage.ts:31-35 | a user without an entry has 0 votes |
| `StageEngine.CountIn` | src/commands/stage.ts:31-35 | a positive number is the count of an entry for that user |
| `StageEngine.Bump` | src/commands/stage.ts:32-34 | entries keep their order and targets; the voted user has an entry afterwards; a new entry comes last with one vote |
| `StageEngine.Tally` | src/commands/stage.ts:31-35 | the record's targets are distinct and every count is positive |
| `StageEngine.BumpSpec` | src/commands/stage.ts:32-34 | one reducer step adds exactly one vote to the voted user and keeps the targets distinct and the counts positive |
| `StageEngine.TallyCounts` | src/commands/stage.ts:31-35 | the tally has one entry per voted user, holding the number of ballots whose `to` is that user |
| `StageEngine.SumUpdate` | src/commands/stage.ts:31-35 | replacing one entry changes the total by the difference of the counts |
| `StageEngine.BumpSum` | src/commands/stage.ts:32-34 | one reducer step adds one to the total |
| `StageEngine.TallySum` | src/commands/stage.ts:31-35 | the tally's counts add up to the number of ballots |
| `StageEngine.MaxVotes` | src/commands/stage.ts:36 | an upper bound of every count that is 0 or reached by some entry |
| `StageEngine.Leaders` | src/commands/stage.ts:37-39 | exactly the targets holding the given count, without repeats when targets are distinct, and empty exactly when no entry holds it |
| `StageEngine.SoleLeaderBeatsAll` | src/commands/stage.ts:36-41 | a sole leader has more votes than anybody else |
| `StageEngine.BelowLeader` | src/commands/stage.ts:36-41 | a user other than the sole holder of the maximum has fewer votes than the maximum |
| `StageEngine.LeadersSingleton` | src/commands/stage.ts:37-39 | when one target alone holds the count, the leaders are exactly that target |
| `StageEngine.StrictLeaderIsSole` | src/commands/stage.ts:36-41 | a user with strictly more votes than anybody else is the sole leader |
| `StageEngine.WinnerBeatsEveryone` | src/commands/stage.ts:36-41 | the result has at least one vote and strictly more votes than anybody else |
| `StageEngine.StrictPluralityWins` | src/commands/stage.ts:36-41 | a strict plurality holder is the result |
| `StageEngine.WinnerIsStrictPlurality` | src/commands/stage.ts:31-41 | the result is `w` exactly when `w` has at least one vote and strictly more than everyone else |
| `StageEngine.NoWinnerOnTie` | src/commands/stage.ts:36-41 | no ballots, or two users tied at the maximum, give no result |
| `StageEngine.Winner` | src/commands/stage.ts:36-41 | a result has received at least one ballot |
| `StageEngine.LeaderHasVotes` | src/commands/stage.ts:36-39 | every user holding the maximum of the tally received at least one ballot |
| `StageEngine.EndResult` | src/commands/stage.ts:31-104 | the report holds the tally, the tally's maximum and the result. A Heal result is compared with the result of the stage just before; NoEarlierStage exactly when there is none. An Investigate result says whether the target is a Killer; NoTargetRole exactly when the target has no role. Otherwise there is no verdict. The report goes to the channel of the stage's roles |
| `StageEngine.EndStage` | src/commands/stage.ts:106-113 | on success only the last stage of the stored room changes: status Finished, result the winner; on error nothing changes |
| `StageEngine.WriteFinished` | src/commands/stage.ts:106-113 | the two writes leave the stored room in its finished form and change nothing else |
| `StageEngine.Finish` | src/commands/stage.ts:106-113 | only the last stage changes: it becomes Finished with the given result; the room's other fields and earlier stages are unchanged |
| `StageEngine.RoleNames` | src/commands/stage.ts:191-199 | names exist exactly when every voting role type has a scenario role, one name per type |
| `StageEngine.RoleNamesFirst` | src/commands/stage.ts:191-199 | each name is the name of the first scenario role of its type |
| `StageEngine.Opening` | src/commands/stage.ts:125-201 | a missing template for the next type is an error. The new stage copies roles, targets, prompt and description from the first template of that type. It gets the successor type and the next day, status Playing, no result and no ballots, plus the night report. An unknown voting role is an error |
| `StageEngine.OpeningNames` | src/commands/stage.ts:170-210 | the new stage is named "<template name> - Day <day>" after the first template of its type; the voting roles are the names of the first scenario role of each of its role types; the vote goes to the channel of its roles |
| `StageEngine.NextStage` | src/commands/stage.ts:206-236 | appends exactly the opened stage to the stored room; with more players than the 26 reaction letters it fails after the write |
| `StageEngine.CurrentStage` | src/commands/stage.ts:304 | the last stage, if the room has any |
| `StageEngine.EndsFirst` | src/commands/stage.ts:308 | holds exactly when the room has a current stage and it is Playing; false for a room without stages |
| `StageEngine.Append` | src/commands/stage.ts:206 | the stage list grows by the given stage at its end; earlier stages, name, scenario, roster and status are kept |
| `StageEngine.Execute` | src/commands/stage.ts:293-321 | the reply and the new store are those of the specification of `/stage` |
| `StageEngine.ExecuteSpec` | src/commands/stage.ts:293-321 | the store keeps its length, and rooms under another name are untouched |
| `StageEngine.ExecuteAt` | src/commands/stage.ts:304-320 | only room `i` may change, and it keeps its name and roster |
| `StageEngine.ExecuteAtShape` | src/commands/stage.ts:304-320 | whatever closing and opening give, only the command's room changes. A failed close is returned and changes nothing. After a successful close: `end`, or a room that is not Playing, is only closed and answers without opening. `next` on a Playing room opens the stage: it is appended to the closed room, and the reply is that opening exactly when the room has at most 26 players (otherwise NoEmojiForPlayer). A failed opening is returned after the close. The reply carries the close's report exactly when a stage was closed |
| `StageEngine.ExecuteGating` | src/commands/stage.ts:304-320 | a running stage is always closed first, and a failed close changes nothing. A stage is opened only on `next` in a Playing room, and there, after a successful close, it always is: the opened stage is appended to the closed room, and the reply reports it exactly when the room has at most 26 players. A failed opening leaves the room closed. Other rooms are untouched |
| `StageEngine.ExecuteCloses` | src/commands/stage.ts:106-113 | a closed stage becomes Finished with the vote winner as its result; without `next` on a Playing room the room is only closed |
| `StageEngine.ClosedWithFinishes` | src/commands/stage.ts:106-113 | after a successful close the old last stage is Finished with the report's winner, with or without a stage appended after it |
| `StageEngine.ExecuteShape` | src/commands/stage.ts:304-320 | the room becomes its closed form, or its closed form plus one opened stage; on `next` in a Playing room whose close and opening succeed, it is the latter |
| `StageEngine.ClosedRoomKeeps` | src/commands/stage.ts:106-113 | closing keeps all earlier stages and days and leaves no Playing stage |
| `StageEngine.AppendKeeps` | src/commands/stage.ts:206 | appending a stage of a later or equal day after a closed history keeps "only the last is Playing" and "days never decrease" |
| `StageEngine.ExecuteKeepsHistory` | src/commands/stage.ts:293-321 | `/stage` adds at most one stage, keeps every earlier stage, and preserves "only the last is Playing" and "days never decrease" |
| `StageEngine.RegionalLetter` | src/commands/stage.ts:213-215 | the i-th letter is the single code point U+1F1E6 + i |
| `StageEngine.EmojiIndex` | src/commands/stage.ts:213-215 | a reaction's position exactly when it is one of the 26 regional-indicator letters |
| `StageEngine.VotedPlayer` | src/commands/stage.ts:247-256 | a reaction counts exactly when the reacting user is a player and the letter's position holds a player; it counts for that player |
| `StageEngine.Collected` | src/commands/stage.ts:260-261 | the target's number becomes its old value (0 if absent) plus one; other keys are unchanged |
| `StageEngine.Removed` | src/commands/stage.ts:280-281 | the target's number becomes its old value (1 if absent) minus one; other keys are unchanged |
| `StageEngine.CollectThenRemove` | src/commands/stage.ts:260-281 | a removal after a collection restores the tally, an unseen target ending at 0 |
| `StageEngine.ReactionTally.constructor` | src/commands/stage.ts:244 | the tally starts empty |
| `StageEngine.ReactionTally.Collect` | src/commands/stage.ts:246-262 | the collect handler updates the map in place; events of non-players, unknown emoji or empty positions change nothing |
| `StageEngine.ReactionTally.Remove` | src/commands/stage.ts:264-282 | the remove handler updates the map in place; events of non-players, unknown emoji or empty positions change nothing |
| `Voting.CheckVote` | src/commands/vote.ts:28-53 | each error exactly when its check is the first to fail, in source order: no stage; last stage not Playing; voter without a role; voter's role not a voting role; target not a player; target without a role; target's role not a target. Accepted exactly when all pass |
| `Voting.EligibleByRecord` | src/commands/vote.ts:28-53 | with no repeated ids, accepted exactly when the stage is Playing and voter and target have player records whose roles vote and are targeted |
| `Voting.WithoutVoterSnoc` | src/commands/vote.ts:55 | filtering a list with one more ballot keeps that ballot exactly when it is from someone else |
| `Voting.FromWithoutVoter` | src/commands/vote.ts:55 | the filter removes all of the voter's ballots and keeps each other user's ballots in order |
| `Voting.WithoutVoterIdempotent` | src/commands/vote.ts:55 | filtering twice is filtering once |
| `Voting.WithoutVoter` | src/commands/vote.ts:55 | no ballot of the voter is left; every kept ballot was in the list; the list does not grow |
| `Voting.ReplaceVote` | src/commands/vote.ts:55-56 | the new ballot is last; the voter has exactly that one ballot; every other user's ballots are kept in order |
| `Voting.LastVoteWins` | src/commands/vote.ts:55-56 | a second vote replaces the first; voting twice the same way is voting once |
| `Voting.ReplaceKeepsOneBallotEach` | src/commands/vote.ts:55-56 | at most one ballot per user is preserved |
| `Voting.AllVoted` | src/commands/vote.ts:63-66 | holds exactly when every player whose role is defined and votes in the stage has a ballot |
| `Voting.CastVote` | src/commands/vote.ts:24-69 | the reply and the new store are those of the specification of `/vote` |
| `Voting.VoteSpec` | src/commands/vote.ts:24-69 | the store keeps its length, and rooms under another name are untouched |
| `Voting.VoteAt` | src/commands/vote.ts:55-69 | only room `i` may change; it keeps its name, its roster and its number of stages |
| `Voting.VoteAtEffect` | src/commands/vote.ts:55-74 | whatever the checks gave: a rejection is returned and changes nothing; an accepted vote changes only the last stage's ballots, to the replaced list, and answers "changed" exactly when the voter had a ballot |
| `Voting.VoteEffect` | src/commands/vote.ts:28-74 | a rejected vote changes nothing. A vote is stored exactly when the room exists and the checks pass. It then changes only the last stage's ballots, to the replaced list. The reply says "changed" exactly when the voter had a ballot |
| `Voting.HasVotedFrom` | src/commands/vote.ts:65 | a user has a ballot exactly when the user's ballots are not empty |
| `Voting.ReplaceVoteVoters` | src/commands/vote.ts:55-56 | after a vote the voter has a ballot, and every other user has one exactly when they had one before |
| `Voting.QuorumAfterVote` | src/commands/vote.ts:55-66 | with the voter's ballot written, everyone eligible has voted exactly when everyone eligible other than the voter had voted before |
| `Voting.QuorumReadsNewBallots` | src/commands/vote.ts:58-68 | the closing is attempted exactly when every eligible player has a ballot in the list as written, that is, exactly when every eligible player other than the voter had one before; so the last eligible voter's first ballot closes the stage |
| `Start.MafiaCount` | src/commands/start.ts:37 | `round(n/4)`: `4m - 2 <= n < 4m + 2` |
| `Start.RoleAt` | src/commands/start.ts:44-47 | Healer exactly at position 0, Investigator exactly at 1, Killer exactly at positions 2 to `mafia + 1`, Innocent exactly from `max(2, mafia + 2)` on |
| `Start.WithRoles` | src/commands/start.ts:41-50 | each player keeps its id and gets the role of its position |
| `Start.AssignRoles` | src/commands/start.ts:41-50 | the in-place loop leaves the array equal to the positional dealing of its old contents |
| `Start.Permute` | src/commands/start.ts:39 | the shuffled roster has the same length |
| `Start.Shuffle` | src/commands/start.ts:39 | the in-place loop reorders the array by the permutation |
| `Start.PermuteKeepsIds` | src/commands/start.ts:39 | shuffling neither loses nor adds an id, and keeps ids unique |
| `Start.RoleCounts` | src/commands/start.ts:37-50 | Killers `min(m, max(0, n-2))`; one Healer when n ≥ 1; one Investigator when n ≥ 2; Innocents `max(0, n-m-2)` |
| `Start.EveryoneHasARole` | src/commands/start.ts:41-50 | every dealt player has a role, and the four counts add up to n |
| `Start.Audience` | src/commands/start.ts:55-58 | exactly the ids of the players holding the role, as many as hold it |
| `Start.Announce` | src/commands/start.ts:53-123 | the announcement is about the given role; it goes to the general channel exactly for the Innocent role, and otherwise to a channel opened to exactly the players holding that role |
| `Start.Announcements` | src/commands/start.ts:52-90 | one announcement per scenario role, in scenario order |
| `Start.StartGame` | src/commands/start.ts:30-127 | the reply and the new store are those of the specification of `/start` |
| `Start.StartSpec` | src/commands/start.ts:30-127 | the store keeps its length, and rooms under another name are untouched |
| `Start.Deal` | src/commands/start.ts:39-50 | the array steps leave the shuffled roster dealt its positional roles |
| `Start.AnnounceRoles` | src/commands/start.ts:52-127 | one announcement per scenario role; the roster and Playing status are written exactly when there is a role |
| `Start.StartDeals` | src/commands/start.ts:36-127 | after a start with roles the room is Playing. Position 0 holds the Healer, position 1 the Investigator, the next `round(n/4)` positions Killers and the rest Innocents. The ids are those of before. Every newly created role channel is opened to exactly that role's holders |
| `Start.NoRolesNoStart` | src/commands/start.ts:52-127 | a scenario without roles writes nothing, so the room never becomes Playing |
| `Join.NamedChoice` | src/commands/join.ts:27-30 | the first waiting room with exactly that name |
| `Join.MinWaiting` | src/commands/join.ts:31-34 | a waiting room with the fewest players, present exactly when some room is waiting |
| `Join.CandidatesExist` | src/commands/join.ts:27-38 | something can be picked exactly when a waiting room has the upper-cased name (or, with no name, when any room waits); every candidate is waiting |
| `Join.Candidates` | src/commands/join.ts:27-38 | every candidate is a waiting room; with a name, one with exactly the upper-cased name |
| `Join.AddPlayer` | src/commands/join.ts:51-54 | the roster gains `{id, role: undefined}` at the end; existing players and other fields are unchanged |
| `Join.JoinRoom` | src/commands/join.ts:19-66 | the pick is a candidate, and the reply and the new store are those of the join specification for that pick |
| `Join.JoinOutcome` | src/commands/join.ts:19-66 | the store keeps its length; an error changes nothing; a join changes no room under another name than the one reported |
| `Join.JoinEffect` | src/commands/join.ts:25-66 | a successful join picks a waiting room: the first with the upper-cased name, or one with the fewest players. It appends the player there, changes nothing else, and reports the old roster size plus one |
| `Join.JoinRejectsMembers` | src/commands/join.ts:19-23 | a user in any room is turned away and nothing changes |
| `Join.JoinKeepsOneRoomEach` | src/commands/join.ts:19-54 | every user stays in at most one room, at most once |
| `Join.LowerCaseRoomsUnjoinableByName` | src/commands/join.ts:25-30 | a room whose name holds a lower-case letter is never picked by name |
| `Leave.WithoutPlayer` | src/commands/leave.ts:26-28 | exactly the user's entries are removed; unique ids stay unique |
| `Leave.WithoutPlayerAppend` | src/commands/leave.ts:26-28 | the filter distributes over concatenation, so the remaining players keep their order |
| `Leave.WithoutAbsentPlayer` | src/commands/leave.ts:26-28 | removing an absent user changes nothing |
| `Leave.LeaveRoom` | src/commands/leave.ts:12-30 | the reply and the new store are those of the leave specification |
| `Leave.LeaveSpec` | src/commands/leave.ts:12-30 | the store keeps its length and every room its name; an error changes nothing; a leave changes no room under another name than the one reported |
| `Leave.LeaveEffect` | src/commands/leave.ts:12-30 | an error exactly when no room holds the user, and then nothing changes. Otherwise only that room, at its own index, changes, whatever its status: its roster becomes the old roster without the user's entries, others kept in order. No room holds the user afterwards, and one-room-each is preserved |
| `Leave.LeaveUndoesJoin` | src/commands/leave.ts:26-28 | leaving right after joining gives the roster back |
| `Create.FindScenario` | src/commands/create.ts:49-52 | the index of the first catalogued scenario with the name; none exactly when there is none |
| `Create.StageNames` | src/commands/create.ts:106 | the template names in scenario order |
| `Create.CreateRoom` | src/commands/create.ts:39-94 | the reply and the new store are those of the create specification |
| `Create.CreateSpec` | src/commands/create.ts:45-94 | existing rooms are never changed: the store only grows at its end |
| `Create.CreateEffect` | src/commands/create.ts:45-94 | "already exists" exactly when a room has the name; success exactly when the name is free and the scenario exists; a new room is then appended, empty and waiting, with the first catalogued scenario of that name, and earlier rooms are unchanged |
| `Create.CreateKeepsNamesUnique` | src/commands/create.ts:45-47 | room names stay unique |
| `Create.JoinStartsWithFirst` | src/commands/create.ts:106 | a joined list starts with its first part |
| `Create.JoinLength` | src/commands/create.ts:106 | a joined list is as long as its parts plus one separator between each two |
| `Create.JoinFront` | src/commands/create.ts:110-117 | a joined list is its first part, the separator, then the rest joined |
| `Create.RoleLine` | src/commands/create.ts:112-115 | the line starts with the role's name and " - "; without abilities that is all; otherwise the first ability's name follows, and the length is that of the names plus one ", " between each two abilities |
| `Create.RoleLines` | src/commands/create.ts:110-116 | one line per role, in scenario order |
| `Create.WelcomeFor` | src/commands/create.ts:104-118 | the stages field is empty without stages and is the stage's name for one stage; the roles field is empty without roles and is the role's line for one role |
| `Create.RoleSummary` | src/commands/create.ts:108-118 | the roles field opens with the first role's line and is as long as all role lines plus one newline between each two |
| `Create.StageSummary` | src/commands/create.ts:106 | the stage summary is empty without stages, is the one name for one stage, and is otherwise the first name, " -> ", then the summary of the other stages; its length is the names' plus one " -> " between each two |

## Left out

- All Discord work is left out: channels, categories and guild roles, permission overwrites, embeds, messages, reactions, replies. So are the errors raised when a Discord object is missing, such as a role or channel not found or the room name not read from the channel. Each command takes the room name or the user id directly.
- The collector's 10-second timer and the event loop are left out. The collect and remove handlers are sequential updates to the tally, and the tally is never written to a stage (the `end` handler only logs).
- `node-json-db` and the file system are replaced by the `rooms` and `scenarios` sequences of `MafiaDb`. `db` is not exported by `src/db.ts`, so the commands using it would not load; the model lets them reach the same store as the others.
- `Math.random` is left out. The shuffle of `/start` is an arbitrary permutation given as input. The random pick of `/join` is any waiting room with the fewest players.
- Case mapping (`toUpperCase`, `toLowerCase`) covers ASCII letters only.
- `src/commands/delete.ts`, `src/commands/list.ts`, `src/commands/ping.ts`, command loading and deployment are not part of this model.
- There is no death, win condition or random tie-break, because the code has none.
- Each failing `await` that the source lets throw is an `Err` result, and writes already made stay in place.
- `Start.StartDeals`: the source reuses an existing text channel named `role-<lower-cased role name>` in the room's category and does not change its permissions (src/commands/start.ts:60-67). The model does not record channels, so the claim about role channel audiences covers newly created channels only.
- `Start.Audience`: members not in Discord's member cache are filtered out of a role channel in the source; the model keeps every holder of the role.
- `Voting.CastVote`: the stage-closing call made when everyone has voted is modelled only as its failure. The shifted arguments make it fail before it writes.
- `Voting.CastVote`: `db` is taken to be one `node-json-db` instance that returns references into its data, as that library does, so the test at src/commands/vote.ts:63-66 reads the ballots written at src/commands/vote.ts:58-61. The commands that read and write through `getRoomDB` use a fresh instance per call, so their reads are snapshots.
