/** The member-app service methods, statement by statement, proved to do what the steps of `MemberApp` say. */
module MemberAppService {
  import opened Prelude
  import opened MemberApp
  import opened GamesInvariants

  class MemberTables {
    const rules: Rules
    var balances: map<MemberId, Balance>
    var txs: seq<PointTx>
    var rewards: seq<Reward>
    var redemptions: seq<Redemption>
    var plays: seq<Play>
    var sessions: seq<GameSession>
    var progress: map<(nat, MemberId), Progress>

    function Now(): AppBooks
      reads this
    {
      AppBooks(balances, txs, rewards, redemptions, plays, sessions, progress)
    }

    constructor (rules: Rules)
      ensures Now() == EMPTY_APP && this.rules == rules
    {
      this.rules := rules;
      balances, txs, rewards, redemptions, plays, sessions, progress := map[], [], [], [], [], [], map[];
    }

    // ----- points -----

    method AddPoints(tx: PointTx) returns (error: Option<Error>)
      modifies this
      ensures Done(Now(), error) == Credit(old(Now()), tx)
    {
      var current := if tx.member in balances then balances[tx.member].points else 0;
      if current + tx.points < 0 { return Some(NotEnoughPoints); }
      txs := txs + [tx];
      if tx.member in balances {
        var row := balances[tx.member];
        row := row.(points := row.points + tx.points);
        if tx.points > 0 { row := row.(lifetime := row.lifetime + tx.points); }
        balances := balances[tx.member := row];
      } else {
        balances := balances[tx.member := Balance(Max(0, tx.points), if tx.points > 0 then tx.points else 0)];
      }
      return None;
    }

    method AdjustPoints(member: MemberId, known: bool, points: int, hasReason: bool, now: nat)
      returns (error: Option<Error>)
      modifies this
      ensures Done(Now(), error)
              == Perform(old(Now()), rules, Event(now, AdjustingPoints(member, known, points, hasReason)))
    {
      if !known { return Some(MemberNotFound); }
      if points == 0 { return Some(ZeroPoints); }
      if !hasReason { return Some(ReasonRequired); }
      error := AddPoints(PointTx(member, Adjusted, points, FromAdmin, now));
    }

    method CheckIn(member: MemberId, known: bool, now: nat) returns (error: Option<Error>)
      modifies this
      ensures Done(Now(), error) == Perform(old(Now()), rules, Event(now, CheckingIn(member, known)))
    {
      if !rules.pointsEnabled { return Some(Disabled); }
      if !known { return Some(MemberNotFound); }
      if exists tx <- txs :: tx.member == member && tx.source == FromCheckIn && DayOf(tx.at) == DayOf(now) {
        return Some(AlreadyCheckedIn);
      }
      error := AddPoints(PointTx(member, Earned, 5, FromCheckIn, now));
      if error.Some? { return; }
      error := UpdateMissions(member, MissionType.CheckIn, now);
      if error.Some? { return; }
      error := UpdateMissions(member, DailyAccess, now);
    }

    method AwardProfileCompletion(member: MemberId, now: nat) returns (error: Option<Error>)
      modifies this
      ensures Done(Now(), error) == Perform(old(Now()), rules, Event(now, AwardingProfile(member)))
    {
      if !rules.pointsEnabled { return Some(Disabled); }
      if exists tx <- txs :: tx.member == member && tx.source == FromProfile { return Some(AlreadyAwarded); }
      error := AddPoints(PointTx(member, Earned, 25, FromProfile, now));
    }

    method AwardFirstAccess(member: MemberId, now: nat) returns (error: Option<Error>)
      modifies this
      ensures Done(Now(), error) == Perform(old(Now()), rules, Event(now, AwardingFirstAccess(member)))
    {
      if !rules.pointsEnabled { return Some(Disabled); }
      if exists tx <- txs :: tx.member == member && tx.source == FromFirstAccess { return Some(AlreadyAwarded); }
      error := AddPoints(PointTx(member, Earned, 10, FromFirstAccess, now));
    }

    // ----- missions -----

    method UpdateMissions(member: MemberId, kind: MissionType, now: nat) returns (error: Option<Error>)
      modifies this
      ensures Done(Now(), error) == UpdateMissionProgress(old(Now()), rules, member, kind, now)
    {
      if !rules.missionsEnabled { return None; }
      error := None;
      var n := 0;
      while n < |rules.missions|
        invariant 0 <= n <= |rules.missions| && error.None?
        invariant Done(Now(), error) == AdvanceMissions(old(Now()), rules.missions, n, member, kind, now)
      {
        if Listening(rules.missions[n], kind, now) {
          error := AdvanceOne(n, member, now);
          if error.Some? {
            MissionErrorIsFinal(old(Now()), rules.missions, n + 1, |rules.missions|, member, kind, now);
            return;
          }
        }
        n := n + 1;
      }
    }

    /** One mission, in the loop above. */
    method AdvanceOne(n: nat, member: MemberId, now: nat) returns (error: Option<Error>)
      requires n < |rules.missions|
      modifies this
      ensures Done(Now(), error) == AdvanceMission(old(Now()), n, rules.missions[n], member, now)
    {
      var mission, was := rules.missions[n], ProgressOf(Now(), n, member);
      if was.completed { return None; }
      var newProgress := was.progress + 1;
      var completed := newProgress >= mission.targetValue;
      var awarded := if completed then mission.pointsReward else was.pointsAwarded;
      progress := progress[(n, member) := Progress(newProgress, completed, awarded)];
      if !completed { return None; }
      error := AddPoints(PointTx(member, Earned, mission.pointsReward, FromMission(n), now));
    }

    // ----- rewards -----

    method CreateReward(pointsCost: int, stockLimit: Option<int>, now: nat) returns (error: Option<Error>)
      modifies this
      ensures Done(Now(), error) == Perform(old(Now()), rules, Event(now, CreatingReward(pointsCost, stockLimit)))
    {
      rewards := rewards + [Reward(pointsCost, true, stockLimit, stockLimit)];
      return None;
    }

    method EditReward(i: nat, edit: RewardEdit, now: nat) returns (error: Option<Error>)
      modifies this
      ensures Done(Now(), error) == Perform(old(Now()), rules, Event(now, UpdatingReward(i, edit)))
    {
      if i >= |rewards| { return Some(RewardNotFound); }
      var row := rewards[i];
      if edit.pointsCost.Some? { row := row.(pointsCost := edit.pointsCost.value); }
      if edit.active.Some? { row := row.(active := edit.active.value); }
      if edit.stockLimit.Some? { row := row.(stockLimit := edit.stockLimit); }
      if edit.currentStock.Some? { row := row.(currentStock := edit.currentStock); }
      rewards := rewards[i := row];
      return None;
    }

    /** Inside its transaction; points that cannot be taken undo all of it. */
    method Redeem(member: MemberId, i: nat, now: nat) returns (error: Option<Error>)
      modifies this
      ensures Done(Now(), error) == Perform(old(Now()), rules, Event(now, Redeeming(member, i)))
    {
      if !rules.rewardsEnabled { return Some(Disabled); }
      if !rules.redemptionAllowed { return Some(Disabled); }
      if i >= |rewards| || !rewards[i].active { return Some(RewardNotFound); }
      var reward := rewards[i];
      if reward.stockLimit.Some? && reward.currentStock.Some? && reward.currentStock.value <= 0 {
        return Some(OutOfStock);
      }
      if BalanceOf(Now(), member).points < reward.pointsCost { return Some(NotEnoughPoints); }
      var created := |redemptions|;
      error := AddPoints(PointTx(member, Redeemed, -reward.pointsCost, FromRedemption(created), now));
      if error.Some? { return; }
      redemptions := redemptions + [Redemption(i, member, reward.pointsCost, Requested)];
      if reward.stockLimit.Some? && reward.currentStock.Some? {
        rewards := rewards[i := reward.(currentStock := Some(reward.currentStock.value - 1))];
      }
    }

    method Approve(k: nat, now: nat) returns (error: Option<Error>)
      modifies this
      ensures Done(Now(), error) == Perform(old(Now()), rules, Event(now, Approving(k)))
    {
      if k >= |redemptions| || redemptions[k].status != Requested { return Some(RedemptionNotFound); }
      redemptions := redemptions[k := redemptions[k].(status := Approved)];
      return None;
    }

    method Reject(k: nat, now: nat) returns (error: Option<Error>)
      modifies this
      ensures Done(Now(), error) == Perform(old(Now()), rules, Event(now, Rejecting(k)))
    {
      if k >= |redemptions| || redemptions[k].status != Requested { return Some(RedemptionNotFound); }
      var redemption := redemptions[k];
      error := AddPoints(PointTx(redemption.member, Adjusted, redemption.pointsSpent, FromRedemption(k), now));
      if error.Some? { return; }
      if redemption.reward < |rewards| && Counted(rewards[redemption.reward]) {
        var reward := rewards[redemption.reward];
        rewards := rewards[redemption.reward := reward.(currentStock := Some(reward.currentStock.value + 1))];
      }
      redemptions := redemptions[k := redemption.(status := Rejected)];
    }

    method Deliver(k: nat, now: nat) returns (error: Option<Error>)
      modifies this
      ensures Done(Now(), error) == Perform(old(Now()), rules, Event(now, Delivering(k)))
    {
      if k >= |redemptions| || redemptions[k].status != Approved { return Some(RedemptionNotFound); }
      redemptions := redemptions[k := redemptions[k].(status := Delivered)];
      return None;
    }

    // ----- games -----

    /** How many plays the member has had in the day, of the game and of all games. */
    method CountPlays(member: MemberId, g: nat, today: nat) returns (ofGame: int, total: int)
      ensures ofGame == SumBy(plays, PlaysOfOn(member, g, today)) && total == SumBy(plays, PlaysOn(member, today))
    {
      ofGame, total := 0, 0;
      for i := 0 to |plays|
        invariant ofGame == SumBy(plays[..i], PlaysOfOn(member, g, today))
        invariant total == SumBy(plays[..i], PlaysOn(member, today))
      {
        assert plays[..i + 1] == plays[..i] + [plays[i]];
        SumByAppend(plays[..i], plays[i], PlaysOfOn(member, g, today));
        SumByAppend(plays[..i], plays[i], PlaysOn(member, today));
        if plays[i].member == member && DayOf(plays[i].at) == today {
          total := total + 1;
          if plays[i].game == g { ofGame := ofGame + 1; }
        }
      }
      assert plays[..|plays|] == plays;
    }

    method SumPoints(member: MemberId, today: nat) returns (points: int)
      ensures points == SumBy(plays, EarnedOn(member, today))
    {
      points := 0;
      for i := 0 to |plays|
        invariant points == SumBy(plays[..i], EarnedOn(member, today))
      {
        assert plays[..i + 1] == plays[..i] + [plays[i]];
        SumByAppend(plays[..i], plays[i], EarnedOn(member, today));
        if plays[i].member == member && DayOf(plays[i].at) == today { points := points + plays[i].pointsEarned; }
      }
      assert plays[..|plays|] == plays;
    }

    method FindLastPlay(member: MemberId, g: nat) returns (last: Option<nat>)
      ensures last == LastPlay(plays, member, g)
    {
      last := None;
      for i := 0 to |plays|
        invariant last == LastPlay(plays[..i], member, g)
      {
        assert plays[..i + 1][..i] == plays[..i];
        if plays[i].member == member && plays[i].game == g { last := Some(plays[i].at); }
      }
      assert plays[..|plays|] == plays;
    }

    /**
     The checks that playing and starting a session share. They pass exactly when the member is inside the game's
     window, below both daily limits and past the cooldown of every earlier play.
     */
    method CheckLimits(member: MemberId, g: nat, now: nat) returns (error: Option<Error>)
      requires g < |rules.games|
      ensures InTimeOrder(plays) ==> (error.None? <==> MayPlay(Now(), rules, member, g, now))
      ensures error == PlayRefusal(Now(), rules, member, g, now)
    {
      ghost var inOrder := InTimeOrder(plays);
      if inOrder { PassedCheckMeans(Now(), rules, member, g, now); }
      var game, today := rules.games[g], DayOf(now);
      if game.startsAt.Some? && now < game.startsAt.value { return Some(GameNotStarted); }
      if game.endsAt.Some? && now > game.endsAt.value { return Some(GameEnded); }
      var gamePlaysToday, totalPlaysToday := CountPlays(member, g, today);
      if gamePlaysToday >= game.maxPlaysPerDay { return Some(GameLimitReached); }
      if totalPlaysToday >= rules.maxDailyGamePlays { return Some(DailyLimitReached); }
      if game.cooldownHours > 0 {
        var lastPlay := FindLastPlay(member, g);
        if lastPlay.Some? && now < lastPlay.value + game.cooldownHours * HOUR { return Some(Cooldown); }
      }
      return None;
    }

    method Play(member: MemberId, g: nat, rightAnswer: bool, now: nat) returns (error: Option<Error>)
      modifies this
      ensures Done(Now(), error) == Perform(old(Now()), rules, Event(now, Playing(member, g, rightAnswer)))
    {
      if !rules.gamesEnabled { return Some(Disabled); }
      if g >= |rules.games| || !rules.games[g].active { return Some(GameNotFound); }
      var game := rules.games[g];
      error := CheckLimits(member, g, now);
      if error.Some? { return; }

      var todayPoints := SumPoints(member, DayOf(now));
      var pointsEarned := game.pointsReward;
      if game.kind == Quiz && game.hasAnswer && !rightAnswer { pointsEarned := 0; }
      ghost var reward := pointsEarned;
      if todayPoints + pointsEarned > rules.maxDailyPointsFromGames {
        pointsEarned := Max(0, rules.maxDailyPointsFromGames - todayPoints);
      }
      assert pointsEarned == CappedPoints(Now(), rules, member, reward, now);
      error := WritePlay(member, g, pointsEarned, now);
      if error.Some? { return; }
      if game.kind == Quiz {
        error := UpdateMissions(member, QuizParticipation, now);
      } else if game.kind == DailyCheckIn {
        error := UpdateMissions(member, MissionType.CheckIn, now);
        if error.Some? { return; }
        error := UpdateMissions(member, DailyAccess, now);
      }
    }

    method WritePlay(member: MemberId, g: nat, points: int, now: nat) returns (error: Option<Error>)
      modifies this
      ensures Done(Now(), error) == RecordPlay(old(Now()), member, g, points, now)
    {
      var play := |plays|;
      plays := plays + [MemberApp.Play(member, g, points, now)];
      error := None;
      if points > 0 {
        error := AddPoints(PointTx(member, Earned, points, FromGame(play), now));
      }
    }

    /** The open sessions of the game are cancelled, row by row. */
    method CancelOpenSessions(member: MemberId, g: nat)
      modifies this`sessions
      ensures sessions == CancelStarted(old(sessions), member, g)
    {
      var found := sessions;
      for i := 0 to |found|
        invariant |sessions| == |found|
        invariant forall j | 0 <= j < |found| ::
            sessions[j] == if j < i && found[j].member == member && found[j].game == g && found[j].status == Started
                           then found[j].(status := SessionCancelled) else found[j]
      {
        if found[i].member == member && found[i].game == g && found[i].status == Started {
          sessions := sessions[i := found[i].(status := SessionCancelled)];
        }
      }
      CancelStartedAt(found, member, g);
    }

    method StartSession(member: MemberId, g: nat, now: nat) returns (error: Option<Error>)
      modifies this
      ensures Done(Now(), error) == Perform(old(Now()), rules, Event(now, Starting(member, g)))
    {
      if !rules.gamesEnabled { return Some(Disabled); }
      if g >= |rules.games| || !rules.games[g].active { return Some(GameNotFound); }
      if rules.games[g].kind != SessionGame { return Some(GameWithoutSessions); }
      error := CheckLimits(member, g, now);
      if error.Some? { return; }
      CancelOpenSessions(member, g);
      sessions := sessions + [GameSession(member, g, Started, now + SESSION_DURATION)];
    }

    method FinishSession(member: MemberId, s: nat, now: nat) returns (error: Option<Error>)
      modifies this
      ensures Done(Now(), error) == Perform(old(Now()), rules, Event(now, Finishing(member, s)))
    {
      if s >= |sessions| || sessions[s].member != member || sessions[s].status != Started
         || sessions[s].game >= |rules.games| {
        return Some(SessionNotFound);
      }
      if now > sessions[s].expiresAt {
        sessions := sessions[s := sessions[s].(status := Expired)];
        return Some(SessionExpired);
      }
      var g := sessions[s].game;
      var todayPoints := SumPoints(member, DayOf(now));
      var pointsEarned := rules.games[g].pointsReward;
      if todayPoints + pointsEarned > rules.maxDailyPointsFromGames {
        pointsEarned := Max(0, rules.maxDailyPointsFromGames - todayPoints);
      }
      sessions := sessions[s := sessions[s].(status := Finished)];
      error := WritePlay(member, g, pointsEarned, now);
      if error.Some? { return; }
      error := UpdateMissions(member, GamePlay, now);
    }
  }

  /** A mission whose reward cannot be paid ends the round: the later ones are not reached. */
  lemma {:induction false} MissionErrorIsFinal(b: AppBooks, missions: seq<Mission>, n: nat, end: nat, member: MemberId,
                                               kind: MissionType, now: nat)
    requires n <= end <= |missions| && AdvanceMissions(b, missions, n, member, kind, now).error.Some?
    ensures AdvanceMissions(b, missions, end, member, kind, now) == AdvanceMissions(b, missions, n, member, kind, now)
    decreases end
  {
    if n < end { MissionErrorIsFinal(b, missions, n, end - 1, member, kind, now); }
  }
}
