/**
 The member app: points and their transactions, rewards and redemptions, games and missions. Settings,
 games and missions are fixed over a run (`Rules`); every step happens at a time in milliseconds.
 */
module MemberApp {
  import opened Prelude

  type MemberId = string

  datatype Error =
    | Disabled
    | MemberNotFound
    | NotEnoughPoints
    | ZeroPoints
    | ReasonRequired
    | AlreadyCheckedIn
    | AlreadyAwarded
    | RewardNotFound
    | OutOfStock
    | RedemptionNotFound
    | GameNotFound
    | GameNotStarted
    | GameEnded
    | GameWithoutSessions
    | GameLimitReached
    | DailyLimitReached
    | Cooldown
    | SessionNotFound
    | SessionExpired

  const DAY := 86_400_000
  const HOUR := 3_600_000
  const SESSION_DURATION := 300_000

  function DayOf(at: nat): nat { at / DAY }

  // ----- rules -----

  datatype GameKind = DailyCheckIn | Quiz | Spin | Survey | CustomGame | SessionGame
  datatype Game = Game(kind: GameKind, active: bool, pointsReward: int, maxPlaysPerDay: int, cooldownHours: int,
                       startsAt: Option<nat>, endsAt: Option<nat>, hasAnswer: bool)

  datatype MissionType = CompleteProfile | DailyAccess | QuizParticipation | CheckIn | GamePlay | CustomMission
  datatype Mission = Mission(kind: MissionType, active: bool, targetValue: int, pointsReward: int,
                             startsAt: Option<nat>, endsAt: Option<nat>)

  datatype Rules = Rules(pointsEnabled: bool, gamesEnabled: bool, missionsEnabled: bool, rewardsEnabled: bool,
                         redemptionAllowed: bool, maxDailyGamePlays: int, maxDailyPointsFromGames: int,
                         games: seq<Game>, missions: seq<Mission>)

  // ----- tables -----

  datatype TxKind = Earned | Redeemed | Adjusted
  datatype TxSource =
    | FromAdmin | FromCheckIn | FromProfile | FromFirstAccess
    | FromGame(play: nat) | FromMission(mission: nat) | FromRedemption(redemption: nat)
  datatype PointTx = PointTx(member: MemberId, kind: TxKind, points: int, source: TxSource, at: nat)

  datatype Balance = Balance(points: int, lifetime: int)

  datatype Reward = Reward(pointsCost: int, active: bool, stockLimit: Option<int>, currentStock: Option<int>)
  datatype RedemptionStatus = Requested | Approved | Rejected | Delivered
  datatype Redemption = Redemption(reward: nat, member: MemberId, pointsSpent: int, status: RedemptionStatus)

  datatype Play = Play(member: MemberId, game: nat, pointsEarned: int, at: nat)
  datatype GameSessionStatus = Started | Finished | Expired | SessionCancelled
  datatype GameSession = GameSession(member: MemberId, game: nat, status: GameSessionStatus, expiresAt: nat)

  datatype Progress = Progress(progress: int, completed: bool, pointsAwarded: int)

  datatype AppBooks = AppBooks(
    balances: map<MemberId, Balance>,
    txs: seq<PointTx>,
    rewards: seq<Reward>,
    redemptions: seq<Redemption>,
    plays: seq<Play>,
    sessions: seq<GameSession>,
    progress: map<(nat, MemberId), Progress>)

  const EMPTY_APP := AppBooks(map[], [], [], [], [], [], map[])

  /** Most of these steps are not transactions: what was written before an error stays written. */
  datatype Done = Done(books: AppBooks, error: Option<Error>)

  // ----- points -----

  function BalanceOf(b: AppBooks, member: MemberId): Balance {
    if member in b.balances then b.balances[member] else Balance(0, 0)
  }

  function AddPoints(b: AppBooks, tx: PointTx): Result<AppBooks, Error> {
    var next := BalanceOf(b, tx.member).points + tx.points;
    if next < 0 then Failure(NotEnoughPoints)
    else
      var earned := if tx.points > 0 then tx.points else 0;
      var balance := if tx.member in b.balances
                     then Balance(next, b.balances[tx.member].lifetime + earned)
                     else Balance(Max(0, tx.points), earned);
      Success(b.(txs := b.txs + [tx], balances := b.balances[tx.member := balance]))
  }

  /** Adds points outside a transaction: an error leaves what came before. */
  function Credit(b: AppBooks, tx: PointTx): Done {
    match AddPoints(b, tx)
    case Success(b') => Done(b', None)
    case Failure(e) => Done(b, Some(e))
  }

  function AdjustPoints(b: AppBooks, member: MemberId, known: bool, points: int, hasReason: bool, now: nat): Done {
    if !known then Done(b, Some(MemberNotFound))
    else if points == 0 then Done(b, Some(ZeroPoints))
    else if !hasReason then Done(b, Some(ReasonRequired))
    else Credit(b, PointTx(member, Adjusted, points, FromAdmin, now))
  }

  function AwardOnce(b: AppBooks, r: Rules, member: MemberId, source: TxSource, points: int, now: nat): Done {
    if !r.pointsEnabled then Done(b, Some(Disabled))
    else if exists tx <- b.txs :: tx.member == member && tx.source == source then Done(b, Some(AlreadyAwarded))
    else Credit(b, PointTx(member, Earned, points, source, now))
  }

  // ----- missions -----

  predicate InWindow(startsAt: Option<nat>, endsAt: Option<nat>, now: nat) {
    && (startsAt.Some? ==> startsAt.value <= now)
    && (endsAt.Some? ==> now <= endsAt.value)
  }

  predicate Listening(mission: Mission, kind: MissionType, now: nat) {
    mission.active && mission.kind == kind && InWindow(mission.startsAt, mission.endsAt, now)
  }

  function ProgressOf(b: AppBooks, i: nat, member: MemberId): Progress {
    if (i, member) in b.progress then b.progress[(i, member)] else Progress(0, false, 0)
  }

  function AdvanceMission(b: AppBooks, i: nat, mission: Mission, member: MemberId, now: nat): Done {
    var was := ProgressOf(b, i, member);
    if was.completed then Done(b, None)
    else
      var progress := was.progress + 1;
      var completed := progress >= mission.targetValue;
      var row := Progress(progress, completed, if completed then mission.pointsReward else was.pointsAwarded);
      var b' := b.(progress := b.progress[(i, member) := row]);
      if completed then Credit(b', PointTx(member, Earned, mission.pointsReward, FromMission(i), now))
      else Done(b', None)
  }

  /** The first `n` missions take notice of one event of type `kind`. */
  function AdvanceMissions(b: AppBooks, missions: seq<Mission>, n: nat, member: MemberId, kind: MissionType,
                           now: nat): Done
    requires n <= |missions|
    decreases n
  {
    if n == 0 then Done(b, None)
    else
      var rest := AdvanceMissions(b, missions, n - 1, member, kind, now);
      if rest.error.Some? || !Listening(missions[n - 1], kind, now) then rest
      else AdvanceMission(rest.books, n - 1, missions[n - 1], member, now)
  }

  function UpdateMissionProgress(b: AppBooks, r: Rules, member: MemberId, kind: MissionType, now: nat): Done {
    if !r.missionsEnabled then Done(b, None) else AdvanceMissions(b, r.missions, |r.missions|, member, kind, now)
  }

  function ThenMission(d: Done, r: Rules, member: MemberId, kind: MissionType, now: nat): Done {
    if d.error.Some? then d else UpdateMissionProgress(d.books, r, member, kind, now)
  }

  function DoCheckIn(b: AppBooks, r: Rules, member: MemberId, known: bool, now: nat): Done {
    if !r.pointsEnabled then Done(b, Some(Disabled))
    else if !known then Done(b, Some(MemberNotFound))
    else if exists tx <- b.txs :: tx.member == member && tx.source == FromCheckIn && DayOf(tx.at) == DayOf(now) then
      Done(b, Some(AlreadyCheckedIn))
    else
      var credited := Credit(b, PointTx(member, Earned, 5, FromCheckIn, now));
      ThenMission(ThenMission(credited, r, member, CheckIn, now), r, member, DailyAccess, now)
  }

  // ----- rewards -----

  function CreateReward(b: AppBooks, pointsCost: int, stockLimit: Option<int>): Done {
    Done(b.(rewards := b.rewards + [Reward(pointsCost, true, stockLimit, stockLimit)]), None)
  }

  datatype RewardEdit = RewardEdit(pointsCost: Option<int>, active: Option<bool>, stockLimit: Option<int>,
                                   currentStock: Option<int>)

  function Override<T>(value: Option<T>, was: T): T {
    if value.Some? then value.value else was
  }

  function UpdateReward(b: AppBooks, i: nat, edit: RewardEdit): Done {
    if i >= |b.rewards| then Done(b, Some(RewardNotFound))
    else
      var w := b.rewards[i];
      var w' := Reward(Override(edit.pointsCost, w.pointsCost), Override(edit.active, w.active),
                       if edit.stockLimit.Some? then edit.stockLimit else w.stockLimit,
                       if edit.currentStock.Some? then edit.currentStock else w.currentStock);
      Done(b.(rewards := b.rewards[i := w']), None)
  }

  predicate Counted(w: Reward) {
    w.stockLimit.Some? && w.currentStock.Some?
  }

  function MoveStock(rewards: seq<Reward>, i: nat, delta: int): seq<Reward>
    requires i < |rewards|
  {
    if Counted(rewards[i])
    then rewards[i := rewards[i].(currentStock := Some(rewards[i].currentStock.value + delta))]
    else rewards
  }

  function RedeemReward(b: AppBooks, r: Rules, member: MemberId, i: nat, now: nat): Done {
    if !r.rewardsEnabled || !r.redemptionAllowed then Done(b, Some(Disabled))
    else if i >= |b.rewards| || !b.rewards[i].active then Done(b, Some(RewardNotFound))
    else
      var w := b.rewards[i];
      if Counted(w) && w.currentStock.value <= 0 then Done(b, Some(OutOfStock))
      else if BalanceOf(b, member).points < w.pointsCost then Done(b, Some(NotEnoughPoints))
      else
        var k := |b.redemptions|;
        match AddPoints(b, PointTx(member, Redeemed, -w.pointsCost, FromRedemption(k), now))
        case Failure(e) => Done(b, Some(e))
        case Success(b') =>
          Done(b'.(redemptions := b.redemptions + [Redemption(i, member, w.pointsCost, Requested)],
                   rewards := MoveStock(b.rewards, i, -1)), None)
  }

  function SetStatus(b: AppBooks, k: nat, from: RedemptionStatus, to: RedemptionStatus): Done {
    if k >= |b.redemptions| || b.redemptions[k].status != from then Done(b, Some(RedemptionNotFound))
    else Done(b.(redemptions := b.redemptions[k := b.redemptions[k].(status := to)]), None)
  }

  /** Refund, restock and mark, in one transaction. */
  function RejectRedemption(b: AppBooks, k: nat, now: nat): Done {
    if k >= |b.redemptions| || b.redemptions[k].status != Requested then Done(b, Some(RedemptionNotFound))
    else
      var d := b.redemptions[k];
      match AddPoints(b, PointTx(d.member, Adjusted, d.pointsSpent, FromRedemption(k), now))
      case Failure(e) => Done(b, Some(e))
      case Success(b') =>
        Done(b'.(redemptions := b.redemptions[k := d.(status := Rejected)],
                 rewards := if d.reward < |b.rewards| then MoveStock(b.rewards, d.reward, 1) else b.rewards), None)
  }

  // ----- games -----

  function PlaysOn(member: MemberId, day: nat): Play -> int {
    (p: Play) => if p.member == member && DayOf(p.at) == day then 1 else 0
  }

  function PlaysOfOn(member: MemberId, game: nat, day: nat): Play -> int {
    (p: Play) => if p.member == member && p.game == game && DayOf(p.at) == day then 1 else 0
  }

  function EarnedOn(member: MemberId, day: nat): Play -> int {
    (p: Play) => if p.member == member && DayOf(p.at) == day then p.pointsEarned else 0
  }

  /** When the member last played the game. */
  function LastPlay(plays: seq<Play>, member: MemberId, game: nat): Option<nat> {
    if plays == [] then None
    else
      var p := plays[|plays| - 1];
      if p.member == member && p.game == game then Some(p.at) else LastPlay(plays[..|plays| - 1], member, game)
  }

  /** Why the member may not play or start the game now, by its window, the two daily limits and the cooldown. */
  function PlayRefusal(b: AppBooks, r: Rules, member: MemberId, g: nat, now: nat): Option<Error>
    requires g < |r.games|
  {
    var game, today := r.games[g], DayOf(now);
    if game.startsAt.Some? && now < game.startsAt.value then Some(GameNotStarted)
    else if game.endsAt.Some? && now > game.endsAt.value then Some(GameEnded)
    else if SumBy(b.plays, PlaysOfOn(member, g, today)) >= game.maxPlaysPerDay then Some(GameLimitReached)
    else if SumBy(b.plays, PlaysOn(member, today)) >= r.maxDailyGamePlays then Some(DailyLimitReached)
    else
      var last := LastPlay(b.plays, member, g);
      if game.cooldownHours > 0 && last.Some? && now < last.value + game.cooldownHours * HOUR then Some(Cooldown)
      else None
  }

  function CappedPoints(b: AppBooks, r: Rules, member: MemberId, reward: int, now: nat): int {
    var sofar := SumBy(b.plays, EarnedOn(member, DayOf(now)));
    if sofar + reward > r.maxDailyPointsFromGames then Max(0, r.maxDailyPointsFromGames - sofar) else reward
  }

  /** The play row, and its points if there are any. */
  function RecordPlay(b: AppBooks, member: MemberId, g: nat, points: int, now: nat): Done {
    var b' := b.(plays := b.plays + [Play(member, g, points, now)]);
    if points > 0 then Credit(b', PointTx(member, Earned, points, FromGame(|b.plays|), now)) else Done(b', None)
  }

  function PlayGame(b: AppBooks, r: Rules, member: MemberId, g: nat, rightAnswer: bool, now: nat): Done {
    if !r.gamesEnabled then Done(b, Some(Disabled))
    else if g >= |r.games| || !r.games[g].active then Done(b, Some(GameNotFound))
    else
      var refusal := PlayRefusal(b, r, member, g, now);
      if refusal.Some? then Done(b, refusal)
      else
        var game := r.games[g];
        var reward := if game.kind == Quiz && game.hasAnswer && !rightAnswer then 0 else game.pointsReward;
        var played := RecordPlay(b, member, g, CappedPoints(b, r, member, reward, now), now);
        AfterPlay(played, r, member, game.kind, now)
  }

  /** The missions that a play of a game of this kind is an event for. */
  function AfterPlay(played: Done, r: Rules, member: MemberId, kind: GameKind, now: nat): Done {
    match kind
    case Quiz => ThenMission(played, r, member, QuizParticipation, now)
    case DailyCheckIn => ThenMission(ThenMission(played, r, member, CheckIn, now), r, member, DailyAccess, now)
    case _ => played
  }

  function CancelStarted(sessions: seq<GameSession>, member: MemberId, g: nat): seq<GameSession> {
    if sessions == [] then []
    else
      var s := sessions[|sessions| - 1];
      CancelStarted(sessions[..|sessions| - 1], member, g)
      + [if s.member == member && s.game == g && s.status == Started then s.(status := SessionCancelled) else s]
  }

  function StartGameSession(b: AppBooks, r: Rules, member: MemberId, g: nat, now: nat): Done {
    if !r.gamesEnabled then Done(b, Some(Disabled))
    else if g >= |r.games| || !r.games[g].active then Done(b, Some(GameNotFound))
    else if r.games[g].kind != SessionGame then Done(b, Some(GameWithoutSessions))
    else
      var refusal := PlayRefusal(b, r, member, g, now);
      if refusal.Some? then Done(b, refusal)
      else
        Done(b.(sessions := CancelStarted(b.sessions, member, g)
                            + [GameSession(member, g, Started, now + SESSION_DURATION)]), None)
  }

  function FinishGameSession(b: AppBooks, r: Rules, member: MemberId, s: nat, now: nat): Done {
    if s >= |b.sessions| || b.sessions[s].member != member || b.sessions[s].status != Started
       || b.sessions[s].game >= |r.games| then
      Done(b, Some(SessionNotFound))
    else if now > b.sessions[s].expiresAt then
      Done(b.(sessions := b.sessions[s := b.sessions[s].(status := Expired)]), Some(SessionExpired))
    else
      var g := b.sessions[s].game;
      var points := CappedPoints(b, r, member, r.games[g].pointsReward, now);
      var finished := b.(sessions := b.sessions[s := b.sessions[s].(status := Finished)]);
      ThenMission(RecordPlay(finished, member, g, points, now), r, member, GamePlay, now)
  }

  // ----- steps and runs -----

  datatype Step =
    | AdjustingPoints(member: MemberId, known: bool, points: int, hasReason: bool)
    | CheckingIn(member: MemberId, known: bool)
    | AwardingProfile(member: MemberId)
    | AwardingFirstAccess(member: MemberId)
    | CreatingReward(pointsCost: int, stockLimit: Option<int>)
    | UpdatingReward(reward: nat, edit: RewardEdit)
    | Redeeming(member: MemberId, reward: nat)
    | Approving(redemption: nat)
    | Rejecting(redemption: nat)
    | Delivering(redemption: nat)
    | Playing(member: MemberId, game: nat, rightAnswer: bool)
    | Starting(member: MemberId, game: nat)
    | Finishing(member: MemberId, session: nat)

  datatype Event = Event(at: nat, step: Step)

  function Perform(b: AppBooks, r: Rules, event: Event): Done {
    var now := event.at;
    match event.step
    case AdjustingPoints(member, known, points, hasReason) => AdjustPoints(b, member, known, points, hasReason, now)
    case CheckingIn(member, known) => DoCheckIn(b, r, member, known, now)
    case AwardingProfile(member) => AwardOnce(b, r, member, FromProfile, 25, now)
    case AwardingFirstAccess(member) => AwardOnce(b, r, member, FromFirstAccess, 10, now)
    case CreatingReward(pointsCost, stockLimit) => CreateReward(b, pointsCost, stockLimit)
    case UpdatingReward(reward, edit) => UpdateReward(b, reward, edit)
    case Redeeming(member, reward) => RedeemReward(b, r, member, reward, now)
    case Approving(redemption) => SetStatus(b, redemption, Requested, Approved)
    case Rejecting(redemption) => RejectRedemption(b, redemption, now)
    case Delivering(redemption) => SetStatus(b, redemption, Approved, Delivered)
    case Playing(member, game, rightAnswer) => PlayGame(b, r, member, game, rightAnswer, now)
    case Starting(member, game) => StartGameSession(b, r, member, game, now)
    case Finishing(member, session) => FinishGameSession(b, r, member, session, now)
  }

  function Run(b: AppBooks, r: Rules, events: seq<Event>): AppBooks {
    if events == [] then b else Perform(Run(b, r, events[..|events| - 1]), r, events[|events| - 1]).books
  }

  /** Steps happen one after the other in time. */
  predicate InOrder(events: seq<Event>) {
    forall i, j | 0 <= i < j < |events| :: events[i].at <= events[j].at
  }
}
