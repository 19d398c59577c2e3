/** The stage engine of the `/stage` command: closing the running stage
    (vote tally, result, heal and investigate verdicts), opening the next one
    (stage-type successor, day counter, night report), the command's gating,
    and the reaction tally kept while a stage's voting message is open. */
module StageEngine {
  import opened Common
  import opened Db
  import Utils

  function Last<T>(s: seq<T>): T
    requires |s| > 0
  {
    s[|s| - 1]
  }

  // ---------------------------------------------------------------------
  // Successor and day counter
  // ---------------------------------------------------------------------

  /** `Object.values(StageType)`: the declaration order of the stage types. */
  const StageOrder: seq<StageType> := [Kill, Heal, Investigate, Vote]

  /** Position of a stage type in the declaration order. */
  function IndexOf(t: StageType): (i: nat)
    ensures i < |StageOrder| && StageOrder[i] == t
  {
    match t
    case Kill => 0
    case Heal => 1
    case Investigate => 2
    case Vote => 3
  }

  /** The type of the stage that `nextStage` opens: the successor, in
      declaration order and cyclically, of the current stage's type, where a
      room without stages counts as coming after Vote. */
  function NextStageType(current: Option<StageType>): (next: StageType)
    ensures current.None? ==> next == Kill
    ensures current.Some? ==> next != current.value
    ensures current.Some? ==> IndexOf(next) == (IndexOf(current.value) + 1) % 4
  {
    StageOrder[(IndexOf(current.GetOr(Vote)) + 1) % |StageOrder|]
  }

  /** The successor is a 4-cycle Kill, Heal, Investigate, Vote, and an empty
      history starts it where Vote would. */
  lemma {:induction false} NextStageTypeCycle(t: StageType)
    ensures NextStageType(None) == NextStageType(Some(Vote))
    ensures NextStageType(Some(Kill)) == Heal && NextStageType(Some(Heal)) == Investigate
    ensures NextStageType(Some(Investigate)) == Vote && NextStageType(Some(Vote)) == Kill
    ensures NextStageType(Some(NextStageType(Some(NextStageType(Some(NextStageType(Some(t)))))))) == t
  {
  }

  /** `nextDay`: the current stage's day (1 when there is no current stage,
      and also when its day is 0, which the source's `||` treats as absent),
      plus one exactly when the new stage is a Vote. */
  function NextDay(currentDay: Option<int>, next: StageType): (day: int)
    ensures currentDay.None? ==> day == (if next == Vote then 2 else 1)
    ensures currentDay.Some? && currentDay.value != 0 ==>
      (day == currentDay.value + 1 <==> next == Vote) && (day == currentDay.value <==> next != Vote)
    ensures currentDay == Some(0) ==> day == (if next == Vote then 2 else 1)
    ensures currentDay.Some? ==> day >= currentDay.value
  {
    var base := if currentDay.None? || currentDay.value == 0 then 1 else currentDay.value;
    if next == Vote then base + 1 else base
  }

  /** Type and day of the stage with position `k` (from 0) in a room whose
      stages were all opened by `nextStage`, starting from an empty history. */
  function Run(k: nat): (StageType, int)
  {
    if k == 0 then
      (NextStageType(None), NextDay(None, NextStageType(None)))
    else
      var (t, d) := Run(k - 1);
      var n := NextStageType(Some(t));
      (n, NextDay(Some(d), n))
  }

  /** Cycle `q` of the run: Kill, Heal, Investigate on day q + 1, then Vote
      on day q + 2. */
  lemma {:induction false} RunCycle(q: nat)
    ensures Run(4 * q) == (Kill, 1 + q)
    ensures Run(4 * q + 1) == (Heal, 1 + q)
    ensures Run(4 * q + 2) == (Investigate, 1 + q)
    ensures Run(4 * q + 3) == (Vote, 2 + q)
  {
    NextStageTypeCycle(Vote);
    if q > 0 {
      RunCycle(q - 1);
      assert 4 * q - 1 == 4 * (q - 1) + 3;
    }
  }

  /** Position k of the run is position `k % 4` of cycle `k / 4`. */
  lemma {:induction false} CyclePosition(k: nat)
    ensures k == 4 * (k / 4) + k % 4 && k % 4 < 4
    ensures (k + 1) / 4 == k / 4 + (if k % 4 == 3 then 1 else 0)
  {
  }

  /** The k-th opened stage has the k-th type of the cycle, and its day is
      1 + (k + 1) / 4: Kill, Heal, Investigate on day 1, then Vote on day 2,
      Kill, Heal, Investigate on day 2, Vote on day 3, and so on. */
  lemma {:induction false} RunShape(k: nat)
    ensures Run(k) == (StageOrder[k % 4], 1 + (k + 1) / 4)
  {
    var q, r := k / 4, k % 4;
    CyclePosition(k);
    RunCycle(q);
    if r == 0 {
      assert Run(k) == Run(4 * q);
    } else if r == 1 {
      assert Run(k) == Run(4 * q + 1);
    } else if r == 2 {
      assert Run(k) == Run(4 * q + 2);
    } else {
      assert Run(k) == Run(4 * q + 3);
    }
  }

  /** Days never decrease from one opened stage to the next, and they grow
      exactly when a Vote stage opens. */
  lemma {:induction false} RunDays(k: nat)
    ensures Run(k).1 <= Run(k + 1).1
    ensures Run(k + 1).1 == Run(k).1 + 1 <==> Run(k + 1).0 == Vote
  {
    RunShape(k);
    RunShape(k + 1);
  }

  // ---------------------------------------------------------------------
  // Night report
  // ---------------------------------------------------------------------

  datatype NightOutcome = EveryoneSafe | Saved(target: UserId) | NotSaved(target: UserId)

  /** The "Day N report" posted before the new stage: who the killers
      targeted on day N and whether the healer saved them. */
  datatype NightReport = NightReport(day: int, outcome: NightOutcome)

  /** Result of the first stage of `day` with type `t`, if there is one and
      its result is set. */
  function DayResult(stages: seq<Stage>, day: int, t: StageType): (r: Option<UserId>)
    ensures r.Some? ==> exists i :: 0 <= i < |stages| && stages[i].day == day && stages[i].stageType == t && stages[i].result == r
    ensures (forall i :: 0 <= i < |stages| ==> stages[i].day != day || stages[i].stageType != t) ==> r.None?
    ensures forall i ::
      (0 <= i < |stages| && stages[i].day == day && stages[i].stageType == t &&
       forall j :: 0 <= j < i ==> !(stages[j].day == day && stages[j].stageType == t))
      ==> r == stages[i].result
  {
    match FirstIndex(stages, (s: Stage) => s.day == day && s.stageType == t)
    case None => None
    case Some(i) => stages[i].result
  }

  /** The night report of `nextStage`: produced when the day changes and the
      new day is not the first; it speaks of the day before the new one. */
  function NightReportFor(stages: seq<Stage>, currentDay: Option<int>, nextDay: int): (r: Option<NightReport>)
    ensures r.Some? <==> currentDay != Some(nextDay) && nextDay != 1
    ensures r.Some? ==> r.value.day == nextDay - 1
    ensures r.Some? ==> (r.value.outcome == EveryoneSafe <==> DayResult(stages, nextDay - 1, Kill).None?)
    ensures r.Some? && r.value.outcome != EveryoneSafe ==>
      Some(r.value.outcome.target) == DayResult(stages, nextDay - 1, Kill)
      && (r.value.outcome.Saved? <==> DayResult(stages, nextDay - 1, Heal) == DayResult(stages, nextDay - 1, Kill))
  {
    if currentDay == Some(nextDay) || nextDay == 1 then None
    else
      var killed := DayResult(stages, nextDay - 1, Kill);
      var healed := DayResult(stages, nextDay - 1, Heal);
      var outcome :=
        if killed.None? then EveryoneSafe
        else if healed == killed then Saved(killed.value)
        else NotSaved(killed.value);
      Some(NightReport(nextDay - 1, outcome))
  }

  /** `nextStage` reports on the night exactly when it opens a Vote stage
      after an existing stage; the first stage of a room never reports. */
  lemma {:induction false} ReportExactlyWhenVoteOpens(stages: seq<Stage>, current: Option<Stage>)
    ensures
      var t := NextStageType(if current.Some? then Some(current.value.stageType) else None);
      var currentDay := if current.Some? then Some(current.value.day) else None;
      NightReportFor(stages, currentDay, NextDay(currentDay, t)).Some? <==> current.Some? && t == Vote
  {
  }

  // ---------------------------------------------------------------------
  // Vote tally and result
  // ---------------------------------------------------------------------

  /** One entry of the tally record: a target and the votes it received. */
  datatype Entry = Entry(target: UserId, count: nat)

  /** Number of votes whose target is `x`. */
  function Count(votes: seq<Ballot>, x: UserId): (n: nat)
    ensures n <= |votes|
  {
    if |votes| == 0 then 0
    else Count(votes[..|votes| - 1], x) + (if votes[|votes| - 1].to == x then 1 else 0)
  }

  /** One step of the `reduce`: add a vote for `x`, creating its entry at the
      end of the record when `x` has none yet. */
  function Bump(t: seq<Entry>, x: UserId): (r: seq<Entry>)
    ensures |r| == |t| || (|r| == |t| + 1 && r[|t|] == Entry(x, 1))
    ensures forall i :: 0 <= i < |t| ==> r[i].target == t[i].target
    ensures exists i :: 0 <= i < |r| && r[i].target == x
  {
    match FirstIndex(t, (e: Entry) => e.target == x)
    case Some(k) => t[k := Entry(x, t[k].count + 1)]
    case None => t + [Entry(x, 1)]
  }

  /** The tally record built by `stage.votes.reduce(...)`, with its entries in
      insertion order as `Object.entries` lists them. */
  function Tally(votes: seq<Ballot>): (r: seq<Entry>)
    ensures DistinctTargets(r) && PositiveCounts(r)
  {
    if |votes| == 0 then []
    else
      var t := Tally(votes[..|votes| - 1]);
      BumpSpec(t, votes[|votes| - 1].to);
      Bump(t, votes[|votes| - 1].to)
  }

  /** The votes the record holds for `x` (0 when `x` has no entry). */
  function CountIn(t: seq<Entry>, x: UserId): (n: nat)
    ensures n > 0 ==> exists i :: 0 <= i < |t| && t[i].target == x && t[i].count == n
  {
    match FirstIndex(t, (e: Entry) => e.target == x)
    case None => 0
    case Some(k) => t[k].count
  }

  predicate DistinctTargets(t: seq<Entry>) {
    forall i, j :: 0 <= i < j < |t| ==> t[i].target != t[j].target
  }

  predicate PositiveCounts(t: seq<Entry>) {
    forall i :: 0 <= i < |t| ==> t[i].count > 0
  }

  lemma {:induction false} CountInAt(t: seq<Entry>, x: UserId, i: nat)
    requires DistinctTargets(t) && i < |t| && t[i].target == x
    ensures CountIn(t, x) == t[i].count
  {
    var f := FirstIndex(t, (e: Entry) => e.target == x);
    assert f.Some?;
  }

  lemma {:induction false} CountInAbsent(t: seq<Entry>, x: UserId)
    requires forall i :: 0 <= i < |t| ==> t[i].target != x
    ensures CountIn(t, x) == 0
  {
    assert FirstIndex(t, (e: Entry) => e.target == x).None?;
  }

  lemma {:induction false} BumpSpec(t: seq<Entry>, x: UserId)
    requires DistinctTargets(t) && PositiveCounts(t)
    ensures DistinctTargets(Bump(t, x)) && PositiveCounts(Bump(t, x))
    ensures forall y :: CountIn(Bump(t, x), y) == CountIn(t, y) + (if y == x then 1 else 0)
  {
    var b := Bump(t, x);
    forall y
      ensures CountIn(b, y) == CountIn(t, y) + (if y == x then 1 else 0)
    {
      if i :| 0 <= i < |t| && t[i].target == y {
        CountInAt(t, y, i);
        CountInAt(b, y, i);
      } else if y == x {
        CountInAbsent(t, y);
        CountInAt(b, y, |t|);
      } else {
        CountInAbsent(t, y);
        CountInAbsent(b, y);
      }
    }
  }

  /** The record has one entry per voted target, and each entry's number is
      the number of votes for that target. */
  lemma {:induction false} TallyCounts(votes: seq<Ballot>)
    ensures DistinctTargets(Tally(votes)) && PositiveCounts(Tally(votes))
    ensures forall x :: CountIn(Tally(votes), x) == Count(votes, x)
  {
    if |votes| > 0 {
      TallyCounts(votes[..|votes| - 1]);
      BumpSpec(Tally(votes[..|votes| - 1]), votes[|votes| - 1].to);
    }
  }

  function Sum(t: seq<Entry>): nat {
    if |t| == 0 then 0 else Sum(t[..|t| - 1]) + t[|t| - 1].count
  }

  lemma {:induction false} SumUpdate(t: seq<Entry>, k: nat, e: Entry)
    requires k < |t|
    ensures Sum(t[k := e]) == Sum(t) - t[k].count + e.count
  {
    var u := t[k := e];
    assert u[..|u| - 1] == if k == |t| - 1 then t[..|t| - 1] else t[..|t| - 1][k := e];
    if k < |t| - 1 {
      SumUpdate(t[..|t| - 1], k, e);
    }
  }

  lemma {:induction false} BumpSum(t: seq<Entry>, x: UserId)
    ensures Sum(Bump(t, x)) == Sum(t) + 1
  {
    var f := FirstIndex(t, (e: Entry) => e.target == x);
    if f.Some? {
      SumUpdate(t, f.value, Entry(x, t[f.value].count + 1));
    } else {
      assert (t + [Entry(x, 1)])[..|t|] == t;
    }
  }

  /** The numbers of the tally add up to the number of votes. */
  lemma {:induction false} TallySum(votes: seq<Ballot>)
    ensures Sum(Tally(votes)) == |votes|
  {
    if |votes| > 0 {
      TallySum(votes[..|votes| - 1]);
      BumpSum(Tally(votes[..|votes| - 1]), votes[|votes| - 1].to);
    }
  }

  /** `Math.max(0, ...Object.values(votes))`. */
  function MaxVotes(t: seq<Entry>): (m: nat)
    ensures forall i :: 0 <= i < |t| ==> t[i].count <= m
    ensures m == 0 || exists i :: 0 <= i < |t| && t[i].count == m
  {
    if |t| == 0 then 0
    else
      var m0 := MaxVotes(t[..|t| - 1]);
      if t[|t| - 1].count > m0 then t[|t| - 1].count else m0
  }

  /** The targets whose entry holds `m` votes, in record order (`maxVoted`). */
  function Leaders(t: seq<Entry>, m: nat): (r: seq<UserId>)
    ensures forall x :: x in r <==> exists i :: 0 <= i < |t| && t[i].target == x && t[i].count == m
    ensures DistinctTargets(t) ==> forall i, j :: 0 <= i < j < |r| ==> r[i] != r[j]
    ensures r == [] <==> forall i :: 0 <= i < |t| ==> t[i].count != m
  {
    if |t| == 0 then []
    else
      var rest := Leaders(t[1..], m);
      assert forall i :: 1 <= i < |t| ==> t[i] == t[1..][i - 1];
      assert DistinctTargets(t) ==> DistinctTargets(t[1..]) && t[0].target !in rest;
      if t[0].count == m then [t[0].target] + rest else rest
  }

  /** `maxVotedUser`: the only target with the most votes, or none on a tie
      or when nobody voted. */
  function Winner(votes: seq<Ballot>): (r: Option<UserId>)
    ensures r.Some? ==> Count(votes, r.value) > 0
  {
    var t := Tally(votes);
    var leaders := Leaders(t, MaxVotes(t));
    if |leaders| == 1 then
      LeaderHasVotes(votes, leaders[0]);
      Some(leaders[0])
    else None
  }

  /** Every leader of the tally received at least one vote. */
  lemma {:induction false} LeaderHasVotes(votes: seq<Ballot>, w: UserId)
    requires w in Leaders(Tally(votes), MaxVotes(Tally(votes)))
    ensures Count(votes, w) > 0
  {
    var t := Tally(votes);
    var i :| 0 <= i < |t| && t[i].target == w && t[i].count == MaxVotes(t);
    TallyCounts(votes);
    CountInAt(t, w, i);
  }

  /** A user other than the sole holder of count `m` has fewer votes. */
  lemma {:induction false} BelowLeader(t: seq<Entry>, m: nat, w: UserId, x: UserId)
    requires 0 < m && Leaders(t, m) == [w] && x != w
    requires forall i :: 0 <= i < |t| ==> t[i].count <= m
    ensures CountIn(t, x) < m
  {
    var f := FirstIndex(t, (e: Entry) => e.target == x);
    if f.Some? {
      assert t[f.value].target == x && x !in Leaders(t, m);
    }
  }

  /** On a record with distinct targets, a sole leader has strictly more
      votes than every other user. */
  lemma {:induction false} SoleLeaderBeatsAll(t: seq<Entry>, w: UserId)
    requires DistinctTargets(t) && PositiveCounts(t)
    requires Leaders(t, MaxVotes(t)) == [w]
    ensures CountIn(t, w) > 0
    ensures forall x :: x != w ==> CountIn(t, x) < CountIn(t, w)
  {
    var m := MaxVotes(t);
    assert w in Leaders(t, m);
    var i :| 0 <= i < |t| && t[i].target == w && t[i].count == m;
    CountInAt(t, w, i);
    forall x | x != w
      ensures CountIn(t, x) < CountIn(t, w)
    {
      BelowLeader(t, m, w, x);
    }
  }

  /** When `w` is the only target holding `m` votes, the leaders are exactly `[w]`. */
  lemma {:induction false} LeadersSingleton(t: seq<Entry>, m: nat, w: UserId)
    requires DistinctTargets(t)
    requires exists i :: 0 <= i < |t| && t[i].target == w && t[i].count == m
    requires forall i :: 0 <= i < |t| && t[i].count == m ==> t[i].target == w
    ensures Leaders(t, m) == [w]
  {
    var u := t[1..];
    assert forall i :: 1 <= i < |t| ==> t[i] == u[i - 1];
    if t[0].count == m {
      forall i | 0 <= i < |u|
        ensures u[i].count != m
      {
        assert t[0].target != t[i + 1].target;
      }
    } else {
      var i :| 0 <= i < |t| && t[i].target == w && t[i].count == m;
      assert u[i - 1].target == w && u[i - 1].count == m;
      LeadersSingleton(u, m, w);
    }
  }

  /** On a record with distinct targets, a user with strictly more votes
      than every other user is the sole leader. */
  lemma {:induction false} StrictLeaderIsSole(t: seq<Entry>, w: UserId)
    requires DistinctTargets(t) && PositiveCounts(t)
    requires CountIn(t, w) > 0
    requires forall x :: x != w ==> CountIn(t, x) < CountIn(t, w)
    ensures Leaders(t, MaxVotes(t)) == [w]
  {
    var m := MaxVotes(t);
    var f := FirstIndex(t, (e: Entry) => e.target == w);
    assert f.Some?;
    var i := f.value;
    assert CountIn(t, w) == t[i].count;
    forall k | 0 <= k < |t| && t[k].count == m
      ensures t[k].target == w
    {
      CountInAt(t, t[k].target, k);
    }
    var j :| 0 <= j < |t| && t[j].count == m;
    assert t[j].target == w;
    LeadersSingleton(t, m, w);
  }

  /** `w` received at least one vote and strictly more votes than every other user. */
  ghost predicate StrictPlurality(votes: seq<Ballot>, w: UserId) {
    Count(votes, w) > 0 && forall x :: x != w ==> Count(votes, x) < Count(votes, w)
  }

  /** A result is a user with strictly more votes than anybody else. */
  lemma {:induction false} WinnerBeatsEveryone(votes: seq<Ballot>, w: UserId)
    requires Winner(votes) == Some(w)
    ensures StrictPlurality(votes, w)
  {
    var t := Tally(votes);
    TallyCounts(votes);
    assert Leaders(t, MaxVotes(t)) == [w];
    SoleLeaderBeatsAll(t, w);
  }

  /** A user with strictly more votes than anybody else is the result. */
  lemma {:induction false} StrictPluralityWins(votes: seq<Ballot>, w: UserId)
    requires StrictPlurality(votes, w)
    ensures Winner(votes) == Some(w)
  {
    var t := Tally(votes);
    TallyCounts(votes);
    StrictLeaderIsSole(t, w);
  }

  /** The result of a stage is `w` exactly when `w` received strictly more
      votes than every other user (and at least one). */
  lemma {:induction false} WinnerIsStrictPlurality(votes: seq<Ballot>, w: UserId)
    ensures Winner(votes) == Some(w) <==> StrictPlurality(votes, w)
  {
    if Winner(votes) == Some(w) {
      WinnerBeatsEveryone(votes, w);
    }
    if StrictPlurality(votes, w) {
      StrictPluralityWins(votes, w);
    }
  }

  /** No votes, no result; and two users tied at the top leave no result. */
  lemma {:induction false} NoWinnerOnTie(votes: seq<Ballot>, x: UserId, y: UserId)
    requires votes == [] || (x != y && Count(votes, x) == Count(votes, y) && forall z :: Count(votes, z) <= Count(votes, x))
    ensures Winner(votes).None?
  {
    var w := Winner(votes).GetOr(x);
    WinnerIsStrictPlurality(votes, w);
    assert !StrictPlurality(votes, w) by {
      if votes == [] {
        assert Count(votes, w) == 0;
      } else if w == x {
        assert Count(votes, y) == Count(votes, w);
      } else {
        assert Count(votes, w) <= Count(votes, x);
      }
    }
  }

  // ---------------------------------------------------------------------
  // Closing the running stage (`endStage`)
  // ---------------------------------------------------------------------

  datatype StageError =
    | RoomNotFound       // the room's record cannot be read
    | NoEarlierStage     // heal verdict without a stage before the current one
    | NoTargetRole       // investigate verdict on a target without a role
    | NoTemplate         // the scenario has no template for the next stage type
    | UnknownRole        // a voting role of the template is not in the scenario
    | NoEmojiForPlayer   // more players than voting reactions

  /** The extra verdict a Heal or Investigate stage adds to its report. */
  datatype Verdict = NoVerdict | HealVerdict(healed: bool) | InvestigateVerdict(isKiller: bool)

  /** The content of the "Stage ended" report. */
  datatype EndReport = EndReport(tally: seq<Entry>, maxVotes: nat, winner: Option<UserId>, verdict: Verdict, channel: string)

  /** The computations of `endStage` on the room's last stage. A Heal stage
      with a result compares it with the result of the stage just before the
      current one (which must exist); an Investigate stage with a result says
      whether that user's role is Killer (the user must have a role). */
  function EndResult(room: Room): (r: Result<EndReport, StageError>)
    requires |room.stages| > 0
    ensures
      var stage := Last(room.stages);
      var w := Winner(stage.votes);
      && (r.Err? <==> w.Some? && ((stage.stageType == Heal && |room.stages| < 2)
                                  || (stage.stageType == Investigate && RoleOf(room.players, w.value).None?)))
      && (r == Err(NoEarlierStage) <==> w.Some? && stage.stageType == Heal && |room.stages| < 2)
      && (r == Err(NoTargetRole) <==>
            w.Some? && stage.stageType == Investigate && RoleOf(room.players, w.value).None?)
      && (r.Ok? ==> r.value.winner == w && r.value.tally == Tally(stage.votes))
      && (r.Ok? ==> r.value.maxVotes == MaxVotes(r.value.tally))
      && (r.Ok? && w.Some? && stage.stageType == Heal ==>
            r.value.verdict == HealVerdict(w == room.stages[|room.stages| - 2].result))
      && (r.Ok? && w.Some? && stage.stageType == Investigate ==>
            r.value.verdict == InvestigateVerdict(RoleOf(room.players, w.value) == Some(Killer)))
      && (r.Ok? && (w.None? || stage.stageType == Kill || stage.stageType == Vote) ==> r.value.verdict == NoVerdict)
      && (r.Ok? ==> r.value.channel == Utils.ChannelFor(room.scenario, Some(stage.roles)))
  {
    var stage := Last(room.stages);
    var tally := Tally(stage.votes);
    var w := Winner(stage.votes);
    var verdict: Result<Verdict, StageError> :=
      if w.Some? && stage.stageType == Heal then
        if |room.stages| < 2 then Err(NoEarlierStage)
        else Ok(HealVerdict(w == room.stages[|room.stages| - 2].result))
      else if w.Some? && stage.stageType == Investigate then
        match RoleOf(room.players, w.value)
        case None => Err(NoTargetRole)
        case Some(role) => Ok(InvestigateVerdict(role == Killer))
      else Ok(NoVerdict);
    match verdict
    case Err(e) => Err(e)
    case Ok(v) => Ok(EndReport(tally, MaxVotes(tally), w, v, Utils.ChannelFor(room.scenario, Some(stage.roles))))
  }

  /** The room after its last stage is marked Finished with result `w`. */
  function Finish(room: Room, w: Option<UserId>): (r: Room)
    requires |room.stages| > 0
    ensures r.name == room.name && r.scenario == room.scenario && r.players == room.players && r.status == room.status
    ensures |r.stages| == |room.stages| && r.stages[..|r.stages| - 1] == room.stages[..|room.stages| - 1]
    ensures Last(r.stages).status == Finished && Last(r.stages).result == w
    ensures Last(r.stages) == Last(room.stages).(status := Finished, result := w)
  {
    room.(stages := room.stages[|room.stages| - 1 := Last(room.stages).(status := Finished, result := w)])
  }

  /** `endStage`: compute the report from the snapshot `room`, then write the
      status and the result of the last stage of the stored room. */
  method EndStage(db: MafiaDb, i: nat, room: Room) returns (r: Result<EndReport, StageError>)
    requires i < |db.rooms| && |room.stages| > 0 && |db.rooms[i].stages| == |room.stages|
    modifies db
    ensures db.scenarios == old(db.scenarios)
    ensures r == EndResult(room)
    ensures r.Err? ==> db.rooms == old(db.rooms)
    ensures r.Ok? ==> db.rooms == old(db.rooms)[i := Finish(old(db.rooms)[i], r.value.winner)]
  {
    r := EndResult(room);
    if r.Err? {
      return;
    }
    WriteFinished(db, i, |room.stages| - 1, r.value.winner);
  }

  /** The two writes of `endStage`: the status, then the result, of the
      stage at index `k`, the last one of the stored room. */
  method WriteFinished(db: MafiaDb, i: nat, k: nat, w: Option<UserId>)
    requires i < |db.rooms| && k + 1 == |db.rooms[i].stages|
    modifies db
    ensures db.scenarios == old(db.scenarios)
    ensures db.rooms == old(db.rooms)[i := Finish(old(db.rooms)[i], w)]
  {
    var stored := db.rooms[i];
    db.rooms := db.rooms[i := stored.(stages := stored.stages[k := stored.stages[k].(status := Finished)])];
    stored := db.rooms[i];
    db.rooms := db.rooms[i := stored.(stages := stored.stages[k := stored.stages[k].(result := w)])];
    assert db.rooms[i].stages == Finish(old(db.rooms)[i], w).stages;
  }

  // ---------------------------------------------------------------------
  // Opening the next stage (`nextStage`)
  // ---------------------------------------------------------------------

  /** The names of the scenario roles of the given types, in the order of
      `roles`; none when some type has no role in the scenario. */
  function RoleNames(scenario: Scenario, roles: seq<RoleType>): (r: Option<seq<string>>)
    ensures r.Some? <==> forall i :: 0 <= i < |roles| ==> exists k :: 0 <= k < |scenario.roles| && scenario.roles[k].roleType == roles[i]
    ensures r.Some? ==> |r.value| == |roles|
  {
    if |roles| == 0 then Some([])
    else
      match FirstIndex(scenario.roles, (role: Role) => role.roleType == roles[0])
      case None => None
      case Some(k) =>
        match RoleNames(scenario, roles[1..])
        case None =>
          assert !forall i :: 1 <= i < |roles| ==> exists k :: 0 <= k < |scenario.roles| && scenario.roles[k].roleType == roles[i] by {
            assert forall i :: 1 <= i < |roles| ==> roles[i] == roles[1..][i - 1];
          }
          None
        case Some(names) => Some([scenario.roles[k].name] + names)
  }

  /** Each voting-role name is that of the first scenario role of its type. */
  lemma {:induction false} RoleNamesFirst(scenario: Scenario, roles: seq<RoleType>)
    ensures RoleNames(scenario, roles).Some? ==>
      forall i :: 0 <= i < |roles| ==> FirstRoleNamed(scenario, roles[i], RoleNames(scenario, roles).value[i])
  {
    var r := RoleNames(scenario, roles);
    if |roles| > 0 && r.Some? {
      var k := FirstIndex(scenario.roles, (role: Role) => role.roleType == roles[0]).value;
      RoleNamesFirst(scenario, roles[1..]);
      var names := RoleNames(scenario, roles[1..]).value;
      assert r.value == [scenario.roles[k].name] + names;
      assert FirstRoleNamed(scenario, roles[0], r.value[0]);
      forall i | 1 <= i < |roles|
        ensures FirstRoleNamed(scenario, roles[i], r.value[i])
      {
        assert roles[i] == roles[1..][i - 1] && r.value[i] == names[i - 1];
      }
    }
  }

  /** `name` is the name of the first scenario role of type `t`. */
  ghost predicate FirstRoleNamed(scenario: Scenario, t: RoleType, name: string) {
    exists k :: 0 <= k < |scenario.roles| && scenario.roles[k].roleType == t
      && (forall j :: 0 <= j < k ==> scenario.roles[j].roleType != t)
      && name == scenario.roles[k].name
  }

  /** The content of the "Stage started" announcement and of the voting message. */
  datatype NextReport = NextReport(stage: Stage, night: Option<NightReport>, votingRoles: seq<string>, roleChannel: string)

  function CurrentType(current: Option<Stage>): Option<StageType> {
    if current.Some? then Some(current.value.stageType) else None
  }

  function CurrentDay(current: Option<Stage>): Option<int> {
    if current.Some? then Some(current.value.day) else None
  }

  /** The computations of `nextStage` before it writes: the new stage's type
      and day, its template (the first of that type in the scenario), the
      night report and the names of the voting roles. */
  function Opening(room: Room, current: Option<Stage>): (r: Result<NextReport, StageError>)
    ensures
      var t := NextStageType(CurrentType(current));
      var templates := room.scenario.stages;
      && (r == Err(NoTemplate) <==> forall k :: 0 <= k < |templates| ==> templates[k].stageType != t)
      && (r.Ok? ==>
            exists k :: 0 <= k < |templates| && templates[k].stageType == t
              && (forall j :: 0 <= j < k ==> templates[j].stageType != t)
              && r.value.stage.roles == templates[k].roles
              && r.value.stage.targets == templates[k].targets
              && r.value.stage.resultPrompt == templates[k].resultPrompt
              && r.value.stage.description == templates[k].description
              && RoleNames(room.scenario, templates[k].roles).Some?)
      && (r.Ok? ==>
            && r.value.stage.stageType == t
            && r.value.stage.day == NextDay(CurrentDay(current), t)
            && r.value.stage.status == Playing
            && r.value.stage.result.None?
            && r.value.stage.votes == []
            && r.value.night == NightReportFor(room.stages, CurrentDay(current), r.value.stage.day))
      && (r == Err(UnknownRole) <==>
            exists k :: 0 <= k < |templates| && templates[k].stageType == t
              && (forall j :: 0 <= j < k ==> templates[j].stageType != t)
              && RoleNames(room.scenario, templates[k].roles).None?)
      && (r.Err? ==> r.error == NoTemplate || r.error == UnknownRole)
  {
    var t := NextStageType(CurrentType(current));
    match FirstIndex(room.scenario.stages, (s: StageScenario) => s.stageType == t)
    case None => Err(NoTemplate)
    case Some(k) =>
      var template := room.scenario.stages[k];
      var day := NextDay(CurrentDay(current), t);
      var stage := Stage(t, Playing, None, day, template.name + " - Day " + IntToString(day),
                         template.description, template.targets, template.roles, template.resultPrompt, []);
      match RoleNames(room.scenario, stage.roles)
      case None => Err(UnknownRole)
      case Some(names) =>
        Ok(NextReport(stage, NightReportFor(room.stages, CurrentDay(current), day), names,
                      Utils.ChannelFor(room.scenario, Some(stage.roles))))
  }

  /** The new stage is named after its template and day, the voting roles
      are the names of the first scenario role of each of the stage's role
      types, and the vote goes to the channel of those roles. */
  lemma {:induction false} OpeningNames(room: Room, current: Option<Stage>)
    ensures
      var r := Opening(room, current);
      var t := NextStageType(CurrentType(current));
      var templates := room.scenario.stages;
      && (r.Ok? ==>
            exists k :: 0 <= k < |templates| && templates[k].stageType == t
              && (forall j :: 0 <= j < k ==> templates[j].stageType != t)
              && r.value.stage.name == templates[k].name + " - Day " + IntToString(r.value.stage.day)
              && RoleNames(room.scenario, templates[k].roles) == Some(r.value.votingRoles))
      && (r.Ok? ==> |r.value.votingRoles| == |r.value.stage.roles|
                    && forall i :: 0 <= i < |r.value.stage.roles| ==>
                         FirstRoleNamed(room.scenario, r.value.stage.roles[i], r.value.votingRoles[i]))
      && (r.Ok? ==> r.value.roleChannel == Utils.ChannelFor(room.scenario, Some(r.value.stage.roles)))
  {
    var r := Opening(room, current);
    if r.Ok? {
      var t := NextStageType(CurrentType(current));
      var k := FirstIndex(room.scenario.stages, (s: StageScenario) => s.stageType == t).value;
      assert r.value.stage.roles == room.scenario.stages[k].roles;
      RoleNamesFirst(room.scenario, r.value.stage.roles);
    }
  }

  /** `push("/stages[]", stage)`: the stage list grows by `stage` at its
      end; the earlier stages and every other field are kept. */
  function Append(room: Room, stage: Stage): (r: Room)
    ensures |r.stages| == |room.stages| + 1 && Last(r.stages) == stage
    ensures r.stages[..|room.stages|] == room.stages
    ensures r.name == room.name && r.scenario == room.scenario
    ensures r.players == room.players && r.status == room.status
  {
    room.(stages := room.stages + [stage])
  }

  /** One voting reaction per room player, up to the 26 regional-indicator
      letters. */
  const Reactions: nat := 26

  /** `nextStage`: compute the new stage from the snapshot `room`, append it
      to the stored room, then attach one reaction per player; the source
      fails after the write when a player has no letter left. */
  method NextStage(db: MafiaDb, i: nat, room: Room, current: Option<Stage>) returns (r: Result<NextReport, StageError>)
    requires i < |db.rooms|
    modifies db
    ensures db.scenarios == old(db.scenarios)
    ensures Opening(room, current).Err? ==> r == Opening(room, current) && db.rooms == old(db.rooms)
    ensures Opening(room, current).Ok? ==>
      db.rooms == old(db.rooms)[i := Append(old(db.rooms)[i], Opening(room, current).value.stage)]
    ensures Opening(room, current).Ok? ==>
      r == if |room.players| > Reactions then Err(NoEmojiForPlayer) else Opening(room, current)
  {
    r := Opening(room, current);
    if r.Err? {
      return;
    }
    db.rooms := db.rooms[i := Append(db.rooms[i], r.value.stage)];
    if |room.players| > Reactions {
      r := Err(NoEmojiForPlayer);
    }
  }

  // ---------------------------------------------------------------------
  // The `/stage` command (`execute`)
  // ---------------------------------------------------------------------

  datatype Subcommand = Next | End

  /** Whether a new stage was opened, and if not, why. */
  datatype Opened = NotRequested | NotPlaying | OpenedStage(report: NextReport)

  datatype ExecReply = ExecReply(ended: Option<EndReport>, opening: Opened)

  function CurrentStage(room: Room): (s: Option<Stage>)
    ensures s.Some? <==> |room.stages| > 0
    ensures s.Some? ==> s.value == Last(room.stages)
  {
    if |room.stages| > 0 then Some(Last(room.stages)) else None
  }

  /** A running stage is closed before anything else: `currentStage?.status
      === Status.Playing`, false when the room has no stage. */
  predicate EndsFirst(room: Room): (r: bool)
    ensures r <==> CurrentStage(room).Some? && CurrentStage(room).value.status == Playing
  {
    |room.stages| > 0 && Last(room.stages).status == Playing
  }

  /** The outcome of closing the room's running stage, when it has one. */
  function EndOf(room: Room): Option<Result<EndReport, StageError>> {
    if EndsFirst(room) then Some(EndResult(room)) else None
  }

  /** The room once the outcome `e` of closing its running stage is written:
      a successful close marks the last stage Finished with the winner. */
  function ClosedWith(room: Room, e: Option<Result<EndReport, StageError>>): Room
    requires e.Some? ==> |room.stages| > 0
  {
    if e.Some? && e.value.Ok? then Finish(room, e.value.value.winner) else room
  }

  /** The room as `/stage` leaves it once the running stage (if any) is closed. */
  function ClosedRoom(room: Room): Room {
    ClosedWith(room, EndOf(room))
  }

  /** What `/stage next` or `/stage end` replies and what the store holds
      afterwards. */
  function ExecuteSpec(rooms: seq<Room>, roomName: string, sub: Subcommand): (r: (Result<ExecReply, StageError>, seq<Room>))
    ensures |r.1| == |rooms|
    ensures forall j :: 0 <= j < |rooms| && rooms[j].name != roomName ==> r.1[j] == rooms[j]
  {
    match FindRoom(rooms, roomName)
    case None => (Err(RoomNotFound), rooms)
    case Some(i) => ExecuteAt(rooms, i, sub, EndOf(rooms[i]), Opening(rooms[i], CurrentStage(rooms[i])))
  }

  /** `/stage` on room `i`, given the outcome `e` of closing its running
      stage and the outcome `o` of preparing the next one: the running stage
      is ended first; a new stage is opened only on `next` and only when the
      room is Playing. An error raised after a write leaves that write in
      place. */
  function ExecuteAt(rooms: seq<Room>, i: nat, sub: Subcommand, e: Option<Result<EndReport, StageError>>,
                     o: Result<NextReport, StageError>): (r: (Result<ExecReply, StageError>, seq<Room>))
    requires i < |rooms| && (e.Some? ==> |rooms[i].stages| > 0)
    ensures |r.1| == |rooms| && forall j :: 0 <= j < |rooms| && j != i ==> r.1[j] == rooms[j]
    ensures r.1[i].name == rooms[i].name && r.1[i].players == rooms[i].players
  {
    var room := rooms[i];
    if e.Some? && e.value.Err? then (Err(e.value.error), rooms)
    else
      var ended := if e.Some? then Some(e.value.value) else None;
      var afterEnd := if ended.Some? then rooms[i := Finish(room, ended.value.winner)] else rooms;
      if sub == End then (Ok(ExecReply(ended, NotRequested)), afterEnd)
      else if room.status != Playing then (Ok(ExecReply(ended, NotPlaying)), afterEnd)
      else
        match o
        case Err(err) => (Err(err), afterEnd)
        case Ok(report) =>
          var after := afterEnd[i := Append(afterEnd[i], report.stage)];
          if |room.players| > Reactions then (Err(NoEmojiForPlayer), after)
          else (Ok(ExecReply(ended, OpenedStage(report))), after)
  }

  /** `execute` of the `/stage` command. */
  method Execute(db: MafiaDb, roomName: string, sub: Subcommand) returns (r: Result<ExecReply, StageError>)
    modifies db
    ensures db.scenarios == old(db.scenarios)
    ensures (r, db.rooms) == ExecuteSpec(old(db.rooms), roomName, sub)
  {
    var found := FindRoom(db.rooms, roomName);
    if found.None? {
      return Err(RoomNotFound);
    }
    var i := found.value;
    var room := db.rooms[i];
    var current := CurrentStage(room);
    assert ExecuteSpec(db.rooms, roomName, sub) == ExecuteAt(db.rooms, i, sub, EndOf(room), Opening(room, current));
    var ended: Option<EndReport> := None;
    if current.Some? && current.value.status == Playing {
      var e := EndStage(db, i, room);
      if e.Err? {
        return Err(e.error);
      }
      ended := Some(e.value);
    }
    if sub == Next {
      if room.status == Playing {
        var n := NextStage(db, i, room, current);
        if n.Err? {
          return Err(n.error);
        }
        return Ok(ExecReply(ended, OpenedStage(n.value)));
      }
      return Ok(ExecReply(ended, NotPlaying));
    }
    return Ok(ExecReply(ended, NotRequested));
  }

  /** `/stage` on a room, whatever closing and opening give: only that
      room changes; it becomes its closed form, or, on `next` in a Playing
      room whose close and opening succeeded, its closed form with the new
      stage appended; the reply carries the close's report exactly when a
      stage was closed. */
  lemma {:induction false} ExecuteAtShape(rooms: seq<Room>, i: nat, sub: Subcommand, e: Option<Result<EndReport, StageError>>,
                       o: Result<NextReport, StageError>)
    requires i < |rooms| && (e.Some? ==> |rooms[i].stages| > 0)
    ensures
      var (r, after) := ExecuteAt(rooms, i, sub, e, o);
      var room := rooms[i];
      && |after| == |rooms|
      && (forall j :: 0 <= j < |rooms| && j != i ==> after[j] == rooms[j])
      && (r.Ok? && e.Some? ==> e.value.Ok? && r.value.ended == Some(e.value.value))
      && (r.Ok? && e.None? ==> r.value.ended.None?)
      && (sub == End || room.status != Playing ==> after[i] == ClosedWith(room, e))
      && (after[i] == ClosedWith(room, e)
          || (&& sub == Next && room.status == Playing
              && (e.Some? ==> e.value.Ok?) && o.Ok?
              && after[i] == Append(ClosedWith(room, e), o.value.stage)))
      && (r.Ok? && r.value.opening.OpenedStage? ==>
            && sub == Next && room.status == Playing && o == Ok(r.value.opening.report)
            && after[i] == Append(ClosedWith(room, e), o.value.stage))
      && (e.Some? && e.value.Err? ==> r == Err(e.value.error) && after == rooms)
      && ((e.Some? ==> e.value.Ok?) && (sub == End || room.status != Playing) ==>
            r.Ok? && r.value.opening == (if sub == End then NotRequested else NotPlaying))
      && ((e.Some? ==> e.value.Ok?) && sub == Next && room.status == Playing && o.Err? ==>
            r == Err(o.error) && after[i] == ClosedWith(room, e))
      && ((e.Some? ==> e.value.Ok?) && sub == Next && room.status == Playing && o.Ok? ==>
            && after[i] == Append(ClosedWith(room, e), o.value.stage)
            && (r.Ok? <==> |room.players| <= Reactions)
            && (r.Ok? ==> r.value.opening == OpenedStage(o.value))
            && (r.Err? ==> r.error == NoEmojiForPlayer))
  {
    var room := rooms[i];
    var (r, after) := ExecuteAt(rooms, i, sub, e, o);
    if e.Some? && e.value.Err? {
      assert after == rooms && r.Err?;
    } else {
      var afterEnd := rooms[i := ClosedWith(room, e)];
      if e.None? {
        assert rooms == afterEnd;
      }
      if sub == End || room.status != Playing || o.Err? {
        assert after == afterEnd;
        assert r.Ok? ==> !r.value.opening.OpenedStage?;
      } else {
        assert after == afterEnd[i := Append(ClosedWith(room, e), o.value.stage)];
      }
    }
  }

  /** The gating of `/stage`: a running stage is ended first, and a stage
      is opened only on `next` for a room that is Playing, in which case it
      is appended to the closed room; other rooms are untouched. */
  lemma {:induction false} ExecuteGating(rooms: seq<Room>, roomName: string, sub: Subcommand, i: nat)
    requires FindRoom(rooms, roomName) == Some(i)
    ensures
      var (r, after) := ExecuteSpec(rooms, roomName, sub);
      var room := rooms[i];
      && |after| == |rooms|
      && (forall j :: 0 <= j < |rooms| && j != i ==> after[j] == rooms[j])
      && (r.Ok? ==> (r.value.ended.Some? <==> EndsFirst(room)))
      && (r.Ok? && r.value.opening.OpenedStage? ==>
            && sub == Next && room.status == Playing
            && after[i] == Append(ClosedRoom(room), r.value.opening.report.stage))
      && (EndsFirst(room) && EndResult(room).Err? ==> r == Err(EndResult(room).error) && after == rooms)
      && ((EndsFirst(room) ==> EndResult(room).Ok?) && sub == Next && room.status == Playing ==>
            var o := Opening(room, CurrentStage(room));
            && (o.Err? ==> r == Err(o.error) && after[i] == ClosedRoom(room))
            && (o.Ok? ==>
                  && after[i] == Append(ClosedRoom(room), o.value.stage)
                  && (r.Ok? <==> |room.players| <= Reactions)
                  && (r.Ok? ==> r.value.opening == OpenedStage(o.value))))
  {
    var room := rooms[i];
    ExecuteAtShape(rooms, i, sub, EndOf(room), Opening(room, CurrentStage(room)));
  }

  /** Closing the running stage by `/stage`: it becomes Finished with the
      vote winner as result; without `next` on a Playing room, that is all
      that happens to the room. */
  lemma {:induction false} ExecuteCloses(rooms: seq<Room>, roomName: string, sub: Subcommand, i: nat)
    requires FindRoom(rooms, roomName) == Some(i)
    ensures
      var after := ExecuteSpec(rooms, roomName, sub).1;
      var room := rooms[i];
      && |after| == |rooms|
      && (EndsFirst(room) && EndResult(room).Ok? ==>
            FinishedWith(after[i].stages, |room.stages| - 1, Winner(Last(room.stages).votes)))
      && (sub == End || room.status != Playing ==> after[i] == ClosedRoom(room))
  {
    var room := rooms[i];
    var e := EndOf(room);
    ExecuteAtShape(rooms, i, sub, e, Opening(room, CurrentStage(room)));
    if EndsFirst(room) && EndResult(room).Ok? {
      ClosedWithFinishes(room, e);
    }
  }

  /** A successful close leaves the old last stage Finished with the
      report's winner, whether or not a new stage is appended after it. */
  lemma {:induction false} ClosedWithFinishes(room: Room, e: Option<Result<EndReport, StageError>>)
    requires |room.stages| > 0 && e.Some? && e.value.Ok?
    ensures FinishedWith(ClosedWith(room, e).stages, |room.stages| - 1, e.value.value.winner)
    ensures forall st :: FinishedWith(Append(ClosedWith(room, e), st).stages, |room.stages| - 1, e.value.value.winner)
  {
  }

  /** Stage `k` of the history exists, is Finished and has result `w`. */
  predicate FinishedWith(stages: seq<Stage>, k: int, w: Option<UserId>) {
    0 <= k < |stages| && stages[k].status == Finished && stages[k].result == w
  }

  /** At most the last stage of a room is Playing. */
  predicate OnlyLastPlaying(stages: seq<Stage>) {
    forall k :: 0 <= k < |stages| - 1 ==> stages[k].status != Playing
  }

  /** Stage days never decrease along the history. */
  predicate DaysNonDecreasing(stages: seq<Stage>) {
    forall k :: 0 <= k < |stages| - 1 ==> stages[k].day <= stages[k + 1].day
  }

  /** `/stage` rewrites only the room it is run in: that room becomes the
      room with its running stage closed, possibly with one new stage
      appended. */
  lemma {:induction false} ExecuteShape(rooms: seq<Room>, roomName: string, sub: Subcommand, i: nat)
    requires FindRoom(rooms, roomName) == Some(i)
    ensures
      var after := ExecuteSpec(rooms, roomName, sub).1;
      var room := rooms[i];
      && |after| == |rooms|
      && (forall j :: 0 <= j < |rooms| && j != i ==> after[j] == rooms[j])
      && (after[i] == ClosedRoom(room)
          || (&& room.status == Playing
              && (EndsFirst(room) ==> EndResult(room).Ok?)
              && Opening(room, CurrentStage(room)).Ok?
              && after[i] == Append(ClosedRoom(room), Opening(room, CurrentStage(room)).value.stage)))
      && (sub == Next && room.status == Playing && (EndsFirst(room) ==> EndResult(room).Ok?)
          && Opening(room, CurrentStage(room)).Ok? ==>
            after[i] == Append(ClosedRoom(room), Opening(room, CurrentStage(room)).value.stage))
  {
    var room := rooms[i];
    ExecuteAtShape(rooms, i, sub, EndOf(room), Opening(room, CurrentStage(room)));
  }

  lemma {:induction false} ClosedRoomKeeps(room: Room)
    requires OnlyLastPlaying(room.stages) && DaysNonDecreasing(room.stages)
    ensures |ClosedRoom(room).stages| == |room.stages|
    ensures |room.stages| > 0 ==> ClosedRoom(room).stages[..|room.stages| - 1] == room.stages[..|room.stages| - 1]
    ensures |room.stages| > 0 ==> Last(ClosedRoom(room).stages).day == Last(room.stages).day
    ensures OnlyLastPlaying(ClosedRoom(room).stages) && DaysNonDecreasing(ClosedRoom(room).stages)
    ensures |room.stages| > 0 && (EndsFirst(room) ==> EndResult(room).Ok?) ==> Last(ClosedRoom(room).stages).status != Playing
  {
  }

  lemma {:induction false} AppendKeeps(stages: seq<Stage>, s: Stage)
    requires OnlyLastPlaying(stages) && DaysNonDecreasing(stages)
    requires |stages| > 0 ==> Last(stages).status != Playing && Last(stages).day <= s.day
    ensures OnlyLastPlaying(stages + [s]) && DaysNonDecreasing(stages + [s])
  {
  }

  /** `/stage` keeps the history append-only: every stage but the last is
      kept as it was, at most one stage is added, at most the last stage is
      Playing afterwards, and days still never decrease. */
  lemma {:induction false} ExecuteKeepsHistory(rooms: seq<Room>, roomName: string, sub: Subcommand, i: nat)
    requires FindRoom(rooms, roomName) == Some(i)
    requires OnlyLastPlaying(rooms[i].stages) && DaysNonDecreasing(rooms[i].stages)
    ensures
      var after := ExecuteSpec(rooms, roomName, sub).1;
      var before := rooms[i].stages;
      && |after| == |rooms|
      && |before| <= |after[i].stages| <= |before| + 1
      && (|before| > 0 ==> after[i].stages[..|before| - 1] == before[..|before| - 1])
      && OnlyLastPlaying(after[i].stages)
      && DaysNonDecreasing(after[i].stages)
  {
    var room := rooms[i];
    var after := ExecuteSpec(rooms, roomName, sub).1;
    ExecuteShape(rooms, roomName, sub, i);
    ClosedRoomKeeps(room);
    var closed := ClosedRoom(room).stages;
    if after[i] != ClosedRoom(room) {
      var s := Opening(room, CurrentStage(room)).value.stage;
      assert after[i].stages == closed + [s];
      AppendKeeps(closed, s);
      if |room.stages| > 0 {
        assert (closed + [s])[..|room.stages| - 1] == closed[..|room.stages| - 1];
      }
    }
  }

  // ---------------------------------------------------------------------
  // Reaction tally of the voting message
  // ---------------------------------------------------------------------

  /** The i-th regional-indicator letter, 🇦 to 🇿. */
  function RegionalLetter(i: nat): (r: string)
    requires i < Reactions
    ensures |r| == 1 && r[0] as int == 0x1F1E6 + i
  {
    [(0x1F1E6 + i) as char]
  }

  /** Position of a reaction among the voting letters (`findIndex`). */
  function EmojiIndex(emoji: string): (r: Option<nat>)
    ensures r.Some? <==> exists k :: 0 <= k < Reactions && RegionalLetter(k) == emoji
    ensures r.Some? ==> r.value < Reactions && RegionalLetter(r.value) == emoji
  {
    if |emoji| == 1 && 0x1F1E6 <= emoji[0] as int < 0x1F1E6 + Reactions then
      var k := emoji[0] as int - 0x1F1E6;
      assert RegionalLetter(k) == emoji;
      Some(k)
    else None
  }

  /** The player a reaction counts for: none when the reacting user is not a
      player, the reaction is not a voting letter, or no player has that
      letter's position. */
  function VotedPlayer(players: seq<Player>, user: UserId, emoji: string): (r: Option<UserId>)
    ensures r.Some? <==>
      (exists j :: 0 <= j < |players| && players[j].id == user)
      && (exists k :: 0 <= k < |players| && k < Reactions && RegionalLetter(k) == emoji)
    ensures r.Some? ==> exists k :: 0 <= k < |players| && k < Reactions && RegionalLetter(k) == emoji && r.value == players[k].id
  {
    if FirstIndex(players, (p: Player) => p.id == user).None? then None
    else
      match EmojiIndex(emoji)
      case None => None
      case Some(k) =>
        if k < |players| then Some(players[k].id)
        else
          assert forall k' :: 0 <= k' < Reactions && RegionalLetter(k') == emoji ==> k' == k;
          None
  }

  function Get(m: map<UserId, int>, x: UserId, default: int): int {
    if x in m then m[x] else default
  }

  /** `results[x] ??= 0; results[x]++`. */
  function Collected(results: map<UserId, int>, x: UserId): (r: map<UserId, int>)
    ensures r.Keys == results.Keys + {x}
    ensures r[x] == Get(results, x, 0) + 1
    ensures forall y :: y in results && y != x ==> r[y] == results[y]
  {
    results[x := Get(results, x, 0) + 1]
  }

  /** `results[x] ??= 1; results[x]--`: an unseen target ends at 0. */
  function Removed(results: map<UserId, int>, x: UserId): (r: map<UserId, int>)
    ensures r.Keys == results.Keys + {x}
    ensures r[x] == Get(results, x, 1) - 1
    ensures forall y :: y in results && y != x ==> r[y] == results[y]
  {
    results[x := Get(results, x, 1) - 1]
  }

  /** A reaction removed after it was added leaves the tally as it was (an
      unseen target is left at 0). */
  lemma {:induction false} CollectThenRemove(results: map<UserId, int>, x: UserId)
    ensures Removed(Collected(results, x), x) == results[x := Get(results, x, 0)]
  {
  }

  /** The `{ [key: string]: number }` record updated by the reaction
      collector's `collect` and `remove` handlers. */
  class ReactionTally {
    const players: seq<Player>
    var results: map<UserId, int>

    constructor(players: seq<Player>)
      ensures this.players == players && results == map[]
    {
      this.players := players;
      results := map[];
    }

    /** The `collect` handler. */
    method Collect(user: UserId, emoji: string)
      modifies this
      ensures results == match VotedPlayer(players, user, emoji)
                         case None => old(results)
                         case Some(x) => Collected(old(results), x)
    {
      var player := FirstIndex(players, (p: Player) => p.id == user);
      if player.None? {
        return;
      }
      var emojiIndex := EmojiIndex(emoji);
      if emojiIndex.None? {
        return;
      }
      if emojiIndex.value >= |players| {
        return;
      }
      var voted := players[emojiIndex.value].id;
      results := results[voted := Get(results, voted, 0)];
      results := results[voted := results[voted] + 1];
    }

    /** The `remove` handler. */
    method Remove(user: UserId, emoji: string)
      modifies this
      ensures results == match VotedPlayer(players, user, emoji)
                         case None => old(results)
                         case Some(x) => Removed(old(results), x)
    {
      var player := FirstIndex(players, (p: Player) => p.id == user);
      if player.None? {
        return;
      }
      var emojiIndex := EmojiIndex(emoji);
      if emojiIndex.None? {
        return;
      }
      if emojiIndex.value >= |players| {
        return;
      }
      var voted := players[emojiIndex.value].id;
      results := results[voted := Get(results, voted, 1)];
      results := results[voted := results[voted] - 1];
    }
  }
}
