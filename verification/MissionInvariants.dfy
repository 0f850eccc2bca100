/** Missions count every event they listen to once, and pay once. */
module MissionInvariants {
  import opened Prelude
  import opened MemberApp
  import opened PointsInvariants

  /** Mission rewards are never negative, so paying one cannot fail. */
  predicate PaysOut(r: Rules) {
    forall mission <- r.missions :: 0 <= mission.pointsReward
  }

  function Target(r: Rules, i: nat): int
    requires i < |r.missions|
  {
    Max(1, r.missions[i].targetValue)
  }

  predicate MissionExact(b: AppBooks, r: Rules, i: nat, member: MemberId) {
    i < |r.missions| ==>
      var row, reward := ProgressOf(b, i, member), r.missions[i].pointsReward;
      && 0 <= row.progress <= Target(r, i)
      && (row.completed <==> row.progress == Target(r, i))
      && SumBy(b.txs, MissionTxs(i, member)) == (if row.completed then 1 else 0)
      && SumBy(b.txs, MissionPoints(i, member)) == (if row.completed then reward else 0)
      && row.pointsAwarded == (if row.completed then reward else 0)
  }

  ghost predicate MissionsValid(b: AppBooks, r: Rules) {
    forall i: nat, member: MemberId :: MissionExact(b, r, i, member)
  }

  // ----- one mission -----

  /** Points from elsewhere change nothing for missions. */
  lemma CreditLeavesMissions(b: AppBooks, tx: PointTx, r: Rules, i: nat, member: MemberId)
    requires MissionExact(b, r, i, member) && !tx.source.FromMission?
    ensures MissionExact(Credit(b, tx).books, r, i, member)
    ensures ProgressOf(Credit(b, tx).books, i, member) == ProgressOf(b, i, member)
  {
    SumByAppend(b.txs, tx, MissionTxs(i, member));
    SumByAppend(b.txs, tx, MissionPoints(i, member));
  }

  lemma AdvanceExact(b: AppBooks, r: Rules, i: nat, member: MemberId, now: nat, j: nat, x: MemberId)
    requires BalanceExact(b, member) && PaysOut(r) && i < |r.missions|
    requires MissionExact(b, r, i, member) && MissionExact(b, r, j, x)
    ensures
      var done := AdvanceMission(b, i, r.missions[i], member, now);
      && done.error.None? && MissionExact(done.books, r, j, x)
      && (j < |r.missions| ==>
            ProgressOf(done.books, j, x).progress
            == if (j, x) == (i, member) then Min(ProgressOf(b, j, x).progress + 1, Target(r, i))
               else ProgressOf(b, j, x).progress)
  {
    assert r.missions[i] in r.missions;
    var tx := PointTx(member, Earned, r.missions[i].pointsReward, FromMission(i), now);
    MissionTxAdds(b.txs, tx, i, j, x);
  }

  lemma MissionTxAdds(txs: seq<PointTx>, tx: PointTx, i: nat, j: nat, x: MemberId)
    requires tx.source == FromMission(i)
    ensures
      var own := (j, x) == (i, tx.member);
      && SumBy(txs + [tx], MissionTxs(j, x)) == SumBy(txs, MissionTxs(j, x)) + (if own then 1 else 0)
      && SumBy(txs + [tx], MissionPoints(j, x)) == SumBy(txs, MissionPoints(j, x)) + (if own then tx.points else 0)
  {
    SumByAppend(txs, tx, MissionTxs(j, x));
    SumByAppend(txs, tx, MissionPoints(j, x));
  }

  // ----- one event -----

  predicate Notices(r: Rules, j: nat, kind: MissionType, now: nat) {
    && j < |r.missions| && r.missionsEnabled && r.missions[j].active && r.missions[j].kind == kind
    && (r.missions[j].startsAt.Some? ==> r.missions[j].startsAt.value <= now)
    && (r.missions[j].endsAt.Some? ==> now <= r.missions[j].endsAt.value)
  }

  /** Progress of mission `j` for `x` after something that happened to `member`. */
  function Advanced(b: AppBooks, r: Rules, j: nat, x: MemberId, noticed: bool): int
    requires j < |r.missions|
  {
    if noticed then Min(ProgressOf(b, j, x).progress + 1, Target(r, j)) else ProgressOf(b, j, x).progress
  }

  /** What the first `n` missions have done for mission `j` of `x`. */
  predicate AdvancedSoFar(b: AppBooks, done: Done, r: Rules, n: nat, member: MemberId, kind: MissionType, now: nat,
                          j: nat, x: MemberId)
    requires j < |r.missions|
  {
    && done.error.None? && MissionExact(done.books, r, j, x)
    && ProgressOf(done.books, j, x).progress
       == Advanced(b, r, j, x, j < n && x == member && Listening(r.missions[j], kind, now))
  }

  lemma OneMoreMission(b: AppBooks, rest: Done, r: Rules, n: nat, member: MemberId, kind: MissionType, now: nat,
                       j: nat, x: MemberId)
    requires PaysOut(r) && n < |r.missions| && j < |r.missions|
    requires AdvancedSoFar(b, rest, r, n, member, kind, now, j, x)
    requires MissionExact(rest.books, r, n, member) && BalanceExact(rest.books, member)
    ensures
      var done := if Listening(r.missions[n], kind, now) then AdvanceMission(rest.books, n, r.missions[n], member, now)
                  else rest;
      AdvancedSoFar(b, done, r, n + 1, member, kind, now, j, x)
  {
    AdvanceExact(rest.books, r, n, member, now, j, x);
  }

  lemma BalanceAfterMissions(b: AppBooks, r: Rules, n: nat, member: MemberId, kind: MissionType, now: nat)
    requires PointsValid(b) && n <= |r.missions|
    ensures BalanceExact(AdvanceMissions(b, r.missions, n, member, kind, now).books, member)
  {
    AdvanceMissionsKeeps(b, r.missions, n, member, kind, now);
  }

  lemma {:induction false} AdvanceMissionsExact(b: AppBooks, r: Rules, n: nat, member: MemberId, kind: MissionType,
                                                now: nat, j: nat, x: MemberId)
    requires PointsValid(b) && PaysOut(r) && MissionsValid(b, r) && n <= |r.missions| && j < |r.missions|
    ensures AdvancedSoFar(b, AdvanceMissions(b, r.missions, n, member, kind, now), r, n, member, kind, now, j, x)
    decreases n
  {
    if n == 0 {
      assert MissionExact(b, r, j, x);
    } else {
      var rest := AdvanceMissions(b, r.missions, n - 1, member, kind, now);
      AdvanceMissionsExact(b, r, n - 1, member, kind, now, j, x);
      AdvanceMissionsExact(b, r, n - 1, member, kind, now, n - 1, member);
      BalanceAfterMissions(b, r, n - 1, member, kind, now);
      OneMoreMission(b, rest, r, n - 1, member, kind, now, j, x);
    }
  }

  lemma ThenMissionExact(d: Done, r: Rules, member: MemberId, kind: MissionType, now: nat)
    requires PointsValid(d.books) && PaysOut(r) && MissionsValid(d.books, r)
    ensures
      var done := ThenMission(d, r, member, kind, now);
      && done.error == d.error && MissionsValid(done.books, r)
      && forall j: nat, x: MemberId | j < |r.missions| ::
           ProgressOf(done.books, j, x).progress
           == Advanced(d.books, r, j, x, d.error.None? && x == member && Notices(r, j, kind, now))
  {
    var done := ThenMission(d, r, member, kind, now);
    forall j: nat, x: MemberId
      ensures MissionExact(done.books, r, j, x)
      ensures j < |r.missions| ==>
                ProgressOf(done.books, j, x).progress
                == Advanced(d.books, r, j, x, d.error.None? && x == member && Notices(r, j, kind, now))
    {
      assert MissionExact(d.books, r, j, x);
      if j < |r.missions| { AdvanceMissionsExact(d.books, r, |r.missions|, member, kind, now, j, x); }
    }
    assert r.missionsEnabled && |r.missions| > 0 && d.error.None? ==> done.error.None? by {
      if |r.missions| > 0 { AdvanceMissionsExact(d.books, r, |r.missions|, member, kind, now, 0, member); }
    }
  }

  /** Two kinds of events in a row: a mission listens to one kind, so it notices one of them at most. */
  lemma ThenMissionTwice(d: Done, r: Rules, member: MemberId, first: MissionType, second: MissionType, now: nat)
    requires PointsValid(d.books) && PaysOut(r) && MissionsValid(d.books, r) && first != second
    ensures
      var done := ThenMission(ThenMission(d, r, member, first, now), r, member, second, now);
      && done.error == d.error && MissionsValid(done.books, r)
      && forall j: nat, x: MemberId | j < |r.missions| ::
           ProgressOf(done.books, j, x).progress
           == Advanced(d.books, r, j, x,
                       d.error.None? && x == member && (Notices(r, j, first, now) || Notices(r, j, second, now)))
  {
    ThenMissionExact(d, r, member, first, now);
    ThenMissionKeeps(d, r, member, first, now);
    ThenMissionExact(ThenMission(d, r, member, first, now), r, member, second, now);
  }

  // ----- every step -----

  /** The kinds of events a successful step gives off, and for which member. */
  function Emits(r: Rules, step: Step): set<MissionType> {
    match step
    case CheckingIn(_, _) => {CheckIn, DailyAccess}
    case Playing(_, g, _) =>
      if g < |r.games| then PlayEmits(r.games[g].kind) else {}
    case Finishing(_, _) => {GamePlay}
    case _ => {}
  }

  function Actor(step: Step): Option<MemberId> {
    match step
    case CheckingIn(member, _) => Some(member)
    case Playing(member, _, _) => Some(member)
    case Finishing(member, _) => Some(member)
    case _ => None
  }

  /** Mission `j` takes notice of this event for member `x`. */
  predicate NoticedBy(b: AppBooks, r: Rules, event: Event, j: nat, x: MemberId) {
    && Perform(b, r, event).error.None?
    && Actor(event.step) == Some(x)
    && exists kind <- Emits(r, event.step) :: Notices(r, j, kind, event.at)
  }

  ghost predicate StepExact(b: AppBooks, r: Rules, event: Event) {
    var b' := Perform(b, r, event).books;
    && MissionsValid(b', r)
    && forall j: nat, x: MemberId | j < |r.missions| ::
         ProgressOf(b', j, x).progress == Advanced(b, r, j, x, NoticedBy(b, r, event, j, x))
  }

  /** Progress and mission transactions are as they were. */
  ghost predicate SameMissions(b: AppBooks, b': AppBooks, r: Rules) {
    MissionsValid(b', r) && forall j: nat, x: MemberId :: ProgressOf(b', j, x) == ProgressOf(b, j, x)
  }

  lemma CreditSameMissions(b: AppBooks, tx: PointTx, r: Rules)
    requires MissionsValid(b, r) && !tx.source.FromMission?
    ensures SameMissions(b, Credit(b, tx).books, r)
  {
    forall j: nat, x: MemberId
      ensures MissionExact(Credit(b, tx).books, r, j, x)
      ensures ProgressOf(Credit(b, tx).books, j, x) == ProgressOf(b, j, x)
    {
      assert MissionExact(b, r, j, x);
      CreditLeavesMissions(b, tx, r, j, x);
    }
  }

  lemma MissionsCarryOver(b: AppBooks, b': AppBooks, r: Rules)
    requires MissionsValid(b, r) && b'.txs == b.txs && b'.progress == b.progress
    ensures SameMissions(b, b', r)
  {
    assert forall j: nat, x: MemberId :: MissionExact(b, r, j, x) ==> MissionExact(b', r, j, x);
    assert forall j: nat, x: MemberId :: ProgressOf(b', j, x) == ProgressOf(b, j, x);
  }

  lemma RecordPlaySameMissions(b: AppBooks, r: Rules, member: MemberId, g: nat, points: int, now: nat)
    requires MissionsValid(b, r) && PointsValid(b)
    ensures SameMissions(b, RecordPlay(b, member, g, points, now).books, r)
    ensures RecordPlay(b, member, g, points, now).error.None?
  {
    var b' := b.(plays := b.plays + [Play(member, g, points, now)]);
    MissionsCarryOver(b, b', r);
    CreditSameMissions(b', PointTx(member, Earned, points, FromGame(|b.plays|), now), r);
    assert BalanceExact(b, member);
  }

  lemma CheckInExact(b: AppBooks, r: Rules, event: Event)
    requires PointsValid(b) && PaysOut(r) && MissionsValid(b, r) && event.step.CheckingIn?
    ensures StepExact(b, r, event)
  {
    var member, now := event.step.member, event.at;
    var tx := PointTx(member, Earned, 5, FromCheckIn, now);
    var credited := Credit(b, tx);
    CreditKeeps(b, tx);
    CreditSameMissions(b, tx, r);
    ThenMissionTwice(credited, r, member, CheckIn, DailyAccess, now);
    forall j: nat, x: MemberId | j < |r.missions|
      ensures ProgressOf(Perform(b, r, event).books, j, x).progress
              == Advanced(b, r, j, x, NoticedBy(b, r, event, j, x))
    {
      assert ProgressOf(credited.books, j, x) == ProgressOf(b, j, x);
    }
  }

  lemma PlayingExact(b: AppBooks, r: Rules, event: Event)
    requires PointsValid(b) && PaysOut(r) && MissionsValid(b, r) && event.step.Playing?
    ensures StepExact(b, r, event)
  {
    var member, g, now := event.step.member, event.step.game, event.at;
    if r.gamesEnabled && g < |r.games| && r.games[g].active && PlayRefusal(b, r, member, g, now).None? {
      var game := r.games[g];
      var reward := if game.kind == Quiz && game.hasAnswer && !event.step.rightAnswer then 0 else game.pointsReward;
      var points := CappedPoints(b, r, member, reward, now);
      var played := RecordPlay(b, member, g, points, now);
      RecordPlayKeeps(b, member, g, points, now);
      RecordPlaySameMissions(b, r, member, g, points, now);
      AfterPlayExact(played, r, member, game.kind, now);
      forall j: nat, x: MemberId | j < |r.missions|
        ensures ProgressOf(Perform(b, r, event).books, j, x).progress
                == Advanced(b, r, j, x, NoticedBy(b, r, event, j, x))
      {
        assert ProgressOf(played.books, j, x) == ProgressOf(b, j, x);
      }
    }
  }

  function PlayEmits(kind: GameKind): set<MissionType> {
    match kind
    case Quiz => {QuizParticipation}
    case DailyCheckIn => {CheckIn, DailyAccess}
    case _ => {}
  }

  lemma AfterPlayExact(played: Done, r: Rules, member: MemberId, kind: GameKind, now: nat)
    requires PointsValid(played.books) && PaysOut(r) && MissionsValid(played.books, r)
    ensures
      var done := AfterPlay(played, r, member, kind, now);
      && done.error == played.error && MissionsValid(done.books, r)
      && forall j: nat, x: MemberId | j < |r.missions| ::
           ProgressOf(done.books, j, x).progress
           == Advanced(played.books, r, j, x,
                       played.error.None? && x == member && exists e <- PlayEmits(kind) :: Notices(r, j, e, now))
  {
    match kind
    case Quiz => ThenMissionExact(played, r, member, QuizParticipation, now);
    case DailyCheckIn => ThenMissionTwice(played, r, member, CheckIn, DailyAccess, now);
    case _ =>
  }

  lemma FinishingExact(b: AppBooks, r: Rules, event: Event)
    requires PointsValid(b) && PaysOut(r) && MissionsValid(b, r) && event.step.Finishing?
    ensures StepExact(b, r, event)
  {
    var member, s, now := event.step.member, event.step.session, event.at;
    if s < |b.sessions| && b.sessions[s].member == member && b.sessions[s].status == Started
       && b.sessions[s].game < |r.games| {
      var g := b.sessions[s].game;
      var points := CappedPoints(b, r, member, r.games[g].pointsReward, now);
      MissionsCarryOver(b, b.(sessions := b.sessions[s := b.sessions[s].(status := Expired)]), r);
      var finished := b.(sessions := b.sessions[s := b.sessions[s].(status := Finished)]);
      MissionsCarryOver(b, finished, r);
      PointsCarryOver(b, finished);
      var played := RecordPlay(finished, member, g, points, now);
      RecordPlayKeeps(finished, member, g, points, now);
      RecordPlaySameMissions(finished, r, member, g, points, now);
      ThenMissionExact(played, r, member, GamePlay, now);
      forall j: nat, x: MemberId | j < |r.missions|
        ensures ProgressOf(Perform(b, r, event).books, j, x).progress
                == Advanced(b, r, j, x, NoticedBy(b, r, event, j, x))
      {
        assert ProgressOf(played.books, j, x) == ProgressOf(b, j, x);
      }
    }
  }

  lemma RedemptionSameMissions(b: AppBooks, b': AppBooks, tx: PointTx, r: Rules)
    requires MissionsValid(b, r) && !tx.source.FromMission? && b'.txs == b.txs + [tx] && b'.progress == b.progress
    ensures SameMissions(b, b', r)
  {
    forall j: nat, x: MemberId
      ensures MissionExact(b', r, j, x) && ProgressOf(b', j, x) == ProgressOf(b, j, x)
    {
      assert MissionExact(b, r, j, x);
      SumByAppend(b.txs, tx, MissionTxs(j, x));
      SumByAppend(b.txs, tx, MissionPoints(j, x));
    }
  }

  lemma QuietStep(b: AppBooks, r: Rules, event: Event)
    requires MissionsValid(b, r) && Actor(event.step).None?
    ensures StepExact(b, r, event)
  {
    var b', now := Perform(b, r, event).books, event.at;
    match event.step {
      case AdjustingPoints(member, _, points, _) =>
        CreditSameMissions(b, PointTx(member, Adjusted, points, FromAdmin, now), r);
      case AwardingProfile(member) => CreditSameMissions(b, PointTx(member, Earned, 25, FromProfile, now), r);
      case AwardingFirstAccess(member) => CreditSameMissions(b, PointTx(member, Earned, 10, FromFirstAccess, now), r);
      case Redeeming(_, _) => if b' != b { RedemptionSameMissions(b, b', b'.txs[|b.txs|], r); }
      case Rejecting(_) => if b' != b { RedemptionSameMissions(b, b', b'.txs[|b.txs|], r); }
      case _ => MissionsCarryOver(b, b', r);
    }
    assert SameMissions(b, b', r);
  }

  lemma StepIsExact(b: AppBooks, r: Rules, event: Event)
    requires PointsValid(b) && PaysOut(r) && MissionsValid(b, r)
    ensures StepExact(b, r, event)
  {
    match event.step
    case CheckingIn(_, _) => CheckInExact(b, r, event);
    case Playing(_, _, _) => PlayingExact(b, r, event);
    case Finishing(_, _) => FinishingExact(b, r, event);
    case _ => QuietStep(b, r, event);
  }

  // ----- every run -----

  /** How many events of the run mission `j` took notice of for member `x`. */
  function NoticeCount(r: Rules, events: seq<Event>, j: nat, x: MemberId): nat {
    if events == [] then 0
    else
      var init, last := events[..|events| - 1], events[|events| - 1];
      NoticeCount(r, init, j, x) + if NoticedBy(Run(EMPTY_APP, r, init), r, last, j, x) then 1 else 0
  }

  lemma {:induction false} RunIsExact(r: Rules, events: seq<Event>, j: nat, x: MemberId)
    requires PaysOut(r) && j < |r.missions|
    ensures MissionsValid(Run(EMPTY_APP, r, events), r)
    ensures ProgressOf(Run(EMPTY_APP, r, events), j, x).progress == Min(NoticeCount(r, events, j, x), Target(r, j))
  {
    if events == [] {
      assert forall i: nat, member: MemberId :: MissionExact(EMPTY_APP, r, i, member);
    } else {
      var init, last := events[..|events| - 1], events[|events| - 1];
      RunIsExact(r, init, j, x);
      EmptyIsValid();
      RunKeepsPoints(EMPTY_APP, r, init);
      StepIsExact(Run(EMPTY_APP, r, init), r, last);
    }
  }

  /**
   In every run, with a mission that noticed `e` events of a member: its progress is `e` up to the target, it is
   completed
   from the target on, and from then on, and not before, one transaction paid its reward.
   */
  lemma {:induction false} MissionsCountAndPayOnce(r: Rules, events: seq<Event>, j: nat, x: MemberId)
    requires PaysOut(r) && j < |r.missions|
    ensures
      var b, e := Run(EMPTY_APP, r, events), NoticeCount(r, events, j, x);
      && ProgressOf(b, j, x).progress == Min(e, Target(r, j))
      && (ProgressOf(b, j, x).completed <==> e >= Target(r, j))
      && SumBy(b.txs, MissionTxs(j, x)) == (if e >= Target(r, j) then 1 else 0)
      && SumBy(b.txs, MissionPoints(j, x)) == (if e >= Target(r, j) then r.missions[j].pointsReward else 0)
  {
    RunIsExact(r, events, j, x);
    assert MissionExact(Run(EMPTY_APP, r, events), r, j, x);
  }
}
