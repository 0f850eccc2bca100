/** What checking in, playing, and starting and finishing a game session do, told from their requests. */
module GameEffects {
  import opened Prelude
  import opened MemberApp
  import opened PointsInvariants
  import opened GamesInvariants
  import opened PointsEffects

  // ----- what missions add to a step -----

  predicate PaidByMission(tx: PointTx, member: MemberId, now: nat) {
    tx.member == member && tx.kind == Earned && tx.source.FromMission? && tx.at == now
  }

  /** The transactions of a step: its own, and then what missions pay its member. */
  ghost predicate Transacts(b: AppBooks, after: AppBooks, own: seq<PointTx>, member: MemberId, now: nat) {
    && b.txs + own <= after.txs
    && forall tx <- after.txs[|b.txs + own|..] :: PaidByMission(tx, member, now)
  }

  /** Missions pay, and touch no other table than their own. */
  ghost predicate OnlyMissions(b: AppBooks, after: AppBooks, member: MemberId, now: nat) {
    && Transacts(b, after, [], member, now)
    && after == b.(txs := after.txs, balances := after.balances, progress := after.progress)
  }

  lemma MissionsAfterMissions(b: AppBooks, mid: AppBooks, after: AppBooks, member: MemberId, now: nat)
    requires OnlyMissions(b, mid, member, now) && OnlyMissions(mid, after, member, now)
    ensures OnlyMissions(b, after, member, now)
  {
    assert b.txs + [] == b.txs && mid.txs + [] == mid.txs;
    assert after.txs[|b.txs|..] == mid.txs[|b.txs|..] + after.txs[|mid.txs|..];
  }

  lemma OneMissionPays(b: AppBooks, i: nat, mission: Mission, member: MemberId, now: nat)
    ensures OnlyMissions(b, AdvanceMission(b, i, mission, member, now).books, member, now)
    ensures var e := AdvanceMission(b, i, mission, member, now).error; e.Some? ==> e.value == NotEnoughPoints
  {
    assert b.txs + [] == b.txs;
  }

  lemma {:induction false} MissionsPay(b: AppBooks, missions: seq<Mission>, n: nat, member: MemberId, kind: MissionType,
                                       now: nat)
    requires n <= |missions|
    ensures
      var d := AdvanceMissions(b, missions, n, member, kind, now);
      OnlyMissions(b, d.books, member, now) && (d.error.Some? ==> d.error.value == NotEnoughPoints)
    decreases n
  {
    assert b.txs + [] == b.txs;
    if n > 0 {
      MissionsPay(b, missions, n - 1, member, kind, now);
      var rest := AdvanceMissions(b, missions, n - 1, member, kind, now);
      OneMissionPays(rest.books, n - 1, missions[n - 1], member, now);
      MissionsAfterMissions(b, rest.books, AdvanceMission(rest.books, n - 1, missions[n - 1], member, now).books,
                            member, now);
    }
  }

  lemma ThenMissionPays(b: AppBooks, d: Done, r: Rules, member: MemberId, kind: MissionType, now: nat)
    requires OnlyMissions(b, d.books, member, now) && (d.error.Some? ==> d.error.value == NotEnoughPoints)
    ensures
      var d' := ThenMission(d, r, member, kind, now);
      OnlyMissions(b, d'.books, member, now) && (d'.error.Some? ==> d'.error.value == NotEnoughPoints)
  {
    if d.error.None? {
      MissionsPay(d.books, r.missions, |r.missions|, member, kind, now);
      assert d.books.txs + [] == d.books.txs;
      MissionsAfterMissions(b, d.books, ThenMission(d, r, member, kind, now).books, member, now);
    }
  }

  lemma NothingPaid(b: AppBooks, member: MemberId, now: nat)
    ensures OnlyMissions(b, b, member, now)
  {
    assert b.txs + [] == b.txs;
  }

  // ----- checking in -----

  predicate CheckedInToday(b: AppBooks, member: MemberId, now: nat) {
    exists tx <- b.txs :: tx.member == member && tx.source == FromCheckIn && tx.at / 86_400_000 == now / 86_400_000
  }

  /** Five points, once a day, and what the missions that listen to it pay. */
  lemma CheckInMeans(b: AppBooks, r: Rules, member: MemberId, known: bool, now: nat)
    requires PointsValid(b)
    ensures
      var d := Perform(b, r, Event(now, CheckingIn(member, known)));
      if r.pointsEnabled && known && !CheckedInToday(b, member, now) then
        && Transacts(b, d.books, [PointTx(member, Earned, 5, FromCheckIn, now)], member, now)
        && d.books == b.(txs := d.books.txs, balances := d.books.balances, progress := d.books.progress)
        && (d.error.Some? ==> d.error == Some(NotEnoughPoints))
      else
        && FailsClean(b, d)
        && ((d.error == Some(Disabled) && !r.pointsEnabled) || (d.error == Some(MemberNotFound) && !known)
            || (d.error == Some(AlreadyCheckedIn) && CheckedInToday(b, member, now)))
  {
    assert BalanceExact(b, member);
    var tx := PointTx(member, Earned, 5, FromCheckIn, now);
    AddPointsMeans(b, tx);
    var own := Credit(b, tx);
    NothingPaid(own.books, member, now);
    ThenMissionPays(own.books, own, r, member, CheckIn, now);
    ThenMissionPays(own.books, ThenMission(own, r, member, CheckIn, now), r, member, DailyAccess, now);
    assert own.books.txs + [] == own.books.txs;
  }

  // ----- what a member may play -----

  function PlayedToday(member: MemberId, now: nat): Play -> int {
    (p: Play) => if p.member == member && p.at / 86_400_000 == now / 86_400_000 then 1 else 0
  }

  function PlayedGameToday(member: MemberId, g: nat, now: nat): Play -> int {
    (p: Play) => if p.member == member && p.game == g && p.at / 86_400_000 == now / 86_400_000 then 1 else 0
  }

  function WonToday(member: MemberId, now: nat): Play -> int {
    (p: Play) => if p.member == member && p.at / 86_400_000 == now / 86_400_000 then p.pointsEarned else 0
  }

  /** An earlier play of the game by the member is less than the cooldown ago. */
  predicate CoolingDown(b: AppBooks, r: Rules, member: MemberId, g: nat, now: nat)
    requires g < |r.games|
  {
    0 < r.games[g].cooldownHours
    && exists p <- b.plays :: p.member == member && p.game == g && now < p.at + r.games[g].cooldownHours * 3_600_000
  }

  predicate IsOnNow(game: Game, now: nat) {
    (game.startsAt.Some? ==> game.startsAt.value <= now) && (game.endsAt.Some? ==> now <= game.endsAt.value)
  }

  /** Why a game is not on for the member now, if it is not. */
  predicate GameRefused(b: AppBooks, r: Rules, member: MemberId, g: nat, now: nat, e: Error) {
    match e
    case Disabled => !r.gamesEnabled
    case GameNotFound => g < |r.games| ==> !r.games[g].active
    case GameNotStarted => g < |r.games| && r.games[g].startsAt.Some? && now < r.games[g].startsAt.value
    case GameEnded => g < |r.games| && r.games[g].endsAt.Some? && r.games[g].endsAt.value < now
    case GameLimitReached =>
      g < |r.games| && r.games[g].maxPlaysPerDay <= SumBy(b.plays, PlayedGameToday(member, g, now))
    case DailyLimitReached => r.maxDailyGamePlays <= SumBy(b.plays, PlayedToday(member, now))
    case Cooldown => g < |r.games| && CoolingDown(b, r, member, g, now)
    case _ => false
  }

  predicate GameIsOn(b: AppBooks, r: Rules, member: MemberId, g: nat, now: nat) {
    && r.gamesEnabled && g < |r.games| && r.games[g].active && IsOnNow(r.games[g], now)
    && SumBy(b.plays, PlayedGameToday(member, g, now)) < r.games[g].maxPlaysPerDay
    && SumBy(b.plays, PlayedToday(member, now)) < r.maxDailyGamePlays
    && !CoolingDown(b, r, member, g, now)
  }

  lemma TodaysSums(plays: seq<Play>, member: MemberId, g: nat, now: nat)
    ensures SumBy(plays, PlayedGameToday(member, g, now)) == SumBy(plays, PlaysOfOn(member, g, DayOf(now)))
    ensures SumBy(plays, PlayedToday(member, now)) == SumBy(plays, PlaysOn(member, DayOf(now)))
    ensures SumBy(plays, WonToday(member, now)) == SumBy(plays, EarnedOn(member, DayOf(now)))
  {
    SumByEqual(plays, PlayedGameToday(member, g, now), PlaysOfOn(member, g, DayOf(now)));
    SumByEqual(plays, PlayedToday(member, now), PlaysOn(member, DayOf(now)));
    SumByEqual(plays, WonToday(member, now), EarnedOn(member, DayOf(now)));
  }

  lemma RefusalOfGame(b: AppBooks, r: Rules, member: MemberId, g: nat, now: nat)
    requires g < |r.games| && InTimeOrder(b.plays)
    ensures
      match PlayRefusal(b, r, member, g, now)
      case Some(e) => GameRefused(b, r, member, g, now, e) && !GameIsOn(b, r, member, g, now)
      case None => r.gamesEnabled && r.games[g].active ==> GameIsOn(b, r, member, g, now)
  {
    TodaysSums(b.plays, member, g, now);
    LastPlayIsNewest(b.plays, member, g);
  }

  // ----- playing -----

  /** Of a reward the points that still fit under the day's cap: all, or what is missing to it, or none. */
  predicate Earns(points: int, reward: int, sofar: int, cap: int) {
    if sofar + reward <= cap then points == reward
    else 0 <= points && (points == 0 || sofar + points == cap) && (points == 0 ==> cap <= sofar)
  }

  /** A wrong answer to a quiz earns nothing. */
  function RewardFor(game: Game, rightAnswer: bool): int {
    if game.kind == Quiz && game.hasAnswer && !rightAnswer then 0 else game.pointsReward
  }

  /** One play is recorded, with the points it earned, and their transaction if there are any. */
  ghost predicate OnePlay(b: AppBooks, after: AppBooks, r: Rules, member: MemberId, g: nat, reward: int, now: nat) {
    && |after.plays| == |b.plays| + 1 && after.plays[..|b.plays|] == b.plays
    && var play := after.plays[|b.plays|];
       && play.member == member && play.game == g && play.at == now
       && Earns(play.pointsEarned, reward, SumBy(b.plays, WonToday(member, now)), r.maxDailyPointsFromGames)
       && Transacts(b, after, Winnings(play, |b.plays|), member, now)
       && after == b.(plays := after.plays, sessions := after.sessions, txs := after.txs, balances := after.balances,
                      progress := after.progress)
  }

  function Winnings(play: Play, id: nat): seq<PointTx> {
    if 0 < play.pointsEarned then [PointTx(play.member, Earned, play.pointsEarned, FromGame(id), play.at)] else []
  }

  lemma RecordedPlay(b: AppBooks, member: MemberId, g: nat, points: int, now: nat)
    requires PointsValid(b)
    ensures
      var d := RecordPlay(b, member, g, points, now);
      && d.error.None? && d.books.txs == b.txs + Winnings(Play(member, g, points, now), |b.plays|)
      && d.books == b.(plays := b.plays + [Play(member, g, points, now)], txs := d.books.txs,
                       balances := d.books.balances)
  {
    assert BalanceExact(b, member);
    if 0 < points {
      AddPointsMeans(b.(plays := b.plays + [Play(member, g, points, now)]),
                     PointTx(member, Earned, points, FromGame(|b.plays|), now));
    }
  }

  lemma PlayThenMissions(b: AppBooks, own: AppBooks, after: AppBooks, r: Rules, member: MemberId, g: nat, points: int,
                         reward: int, now: nat)
    requires own.plays == b.plays + [Play(member, g, points, now)]
    requires own.txs == b.txs + Winnings(Play(member, g, points, now), |b.plays|)
    requires own == b.(plays := own.plays, sessions := own.sessions, txs := own.txs, balances := own.balances)
    requires Earns(points, reward, SumBy(b.plays, WonToday(member, now)), r.maxDailyPointsFromGames)
    requires OnlyMissions(own, after, member, now)
    ensures OnePlay(b, after, r, member, g, reward, now)
  {
    assert own.txs + [] == own.txs;
  }

  /** What a play does: it is recorded, it earns what fits under the cap, and missions may pay for it. */
  lemma PlayMeans(b: AppBooks, r: Rules, member: MemberId, g: nat, right: bool, now: nat)
    requires PointsValid(b) && InTimeOrder(b.plays)
    ensures
      var d := Perform(b, r, Event(now, Playing(member, g, right)));
      if GameIsOn(b, r, member, g, now) then
        && OnePlay(b, d.books, r, member, g, RewardFor(r.games[g], right), now) && d.books.sessions == b.sessions
        && (d.error.Some? ==> d.error == Some(NotEnoughPoints))
      else FailsClean(b, d) && GameRefused(b, r, member, g, now, d.error.value)
  {
    if r.gamesEnabled && g < |r.games| && r.games[g].active {
      RefusalOfGame(b, r, member, g, now);
      TodaysSums(b.plays, member, g, now);
      var reward := RewardFor(r.games[g], right);
      var points := CappedPoints(b, r, member, reward, now);
      var own := RecordPlay(b, member, g, points, now);
      RecordedPlay(b, member, g, points, now);
      NothingPaid(own.books, member, now);
      AfterPlayPays(own, r, member, r.games[g].kind, now);
      PlayThenMissions(b, own.books, AfterPlay(own, r, member, r.games[g].kind, now).books, r, member, g, points,
                       reward, now);
    }
  }

  lemma AfterPlayPays(own: Done, r: Rules, member: MemberId, kind: GameKind, now: nat)
    requires own.error.None?
    ensures
      var d := AfterPlay(own, r, member, kind, now);
      OnlyMissions(own.books, d.books, member, now) && (d.error.Some? ==> d.error == Some(NotEnoughPoints))
  {
    NothingPaid(own.books, member, now);
    ThenMissionPays(own.books, own, r, member, QuizParticipation, now);
    ThenMissionPays(own.books, own, r, member, CheckIn, now);
    ThenMissionPays(own.books, ThenMission(own, r, member, CheckIn, now), r, member, DailyAccess, now);
  }

  // ----- sessions -----

  /** The member's open sessions of the game are cancelled, and every other session is as it was. */
  predicate OpenOnesCancelled(sessions: seq<GameSession>, after: seq<GameSession>, member: MemberId, g: nat) {
    && |sessions| <= |after|
    && forall i | 0 <= i < |sessions| ::
         after[i] == if sessions[i].member == member && sessions[i].game == g && sessions[i].status == Started
                     then sessions[i].(status := SessionCancelled) else sessions[i]
  }

  /** Starting cancels the member's open sessions of the game and opens one for five minutes. */
  lemma StartMeans(b: AppBooks, r: Rules, member: MemberId, g: nat, now: nat)
    requires InTimeOrder(b.plays)
    ensures
      var d := Perform(b, r, Event(now, Starting(member, g)));
      if GameIsOn(b, r, member, g, now) && r.games[g].kind == SessionGame then
        && d.error.None? && d.books == b.(sessions := d.books.sessions) && |d.books.sessions| == |b.sessions| + 1
        && OpenOnesCancelled(b.sessions, d.books.sessions, member, g)
        && d.books.sessions[|b.sessions|] == GameSession(member, g, Started, now + 300_000)
      else
        && FailsClean(b, d)
        && (GameRefused(b, r, member, g, now, d.error.value)
            || (d.error == Some(GameWithoutSessions) && g < |r.games| && r.games[g].kind != SessionGame))
  {
    if r.gamesEnabled && g < |r.games| && r.games[g].active {
      RefusalOfGame(b, r, member, g, now);
      CancelStartedAt(b.sessions, member, g);
    }
  }

  predicate CanFinish(b: AppBooks, r: Rules, member: MemberId, s: nat) {
    && s < |b.sessions| && b.sessions[s].member == member && b.sessions[s].status == Started
    && b.sessions[s].game < |r.games|
  }

  /** Finishing in time is a play; later the session only becomes expired. */
  lemma FinishMeans(b: AppBooks, r: Rules, member: MemberId, s: nat, now: nat)
    requires PointsValid(b)
    ensures
      var d := Perform(b, r, Event(now, Finishing(member, s)));
      if !CanFinish(b, r, member, s) then FailsClean(b, d) && d.error == Some(SessionNotFound)
      else if b.sessions[s].expiresAt < now then
        && d.error == Some(SessionExpired)
        && d.books == b.(sessions := b.sessions[s := b.sessions[s].(status := Expired)])
      else
        && OnePlay(b, d.books, r, member, b.sessions[s].game, r.games[b.sessions[s].game].pointsReward, now)
        && d.books.sessions == b.sessions[s := b.sessions[s].(status := Finished)]
        && (d.error.Some? ==> d.error == Some(NotEnoughPoints))
  {
    if CanFinish(b, r, member, s) && now <= b.sessions[s].expiresAt {
      var g := b.sessions[s].game;
      TodaysSums(b.plays, member, g, now);
      var points := CappedPoints(b, r, member, r.games[g].pointsReward, now);
      var finished := b.(sessions := b.sessions[s := b.sessions[s].(status := Finished)]);
      PointsCarryOver(b, finished);
      var own := RecordPlay(finished, member, g, points, now);
      RecordedPlay(finished, member, g, points, now);
      NothingPaid(own.books, member, now);
      ThenMissionPays(own.books, own, r, member, GamePlay, now);
      PlayThenMissions(b, own.books, ThenMission(own, r, member, GamePlay, now).books, r, member, g, points,
                       r.games[g].pointsReward, now);
    }
  }
}
