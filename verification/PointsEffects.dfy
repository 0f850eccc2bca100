/** What each step of the member app does, told from its request: whose points it moves, how far, and why it fails. */
module PointsEffects {
  import opened Prelude
  import opened MemberApp
  import opened PointsInvariants

  // ----- points -----

  /** The member's points move by `points`, lifetime points by what of that is a gain, and nobody else's at all. */
  ghost predicate PointsMove(b: AppBooks, after: AppBooks, member: MemberId, points: int) {
    forall m: MemberId ::
      BalanceOf(after, m)
      == if m == member then Balance(BalanceOf(b, m).points + points, BalanceOf(b, m).lifetime + Max(points, 0))
         else BalanceOf(b, m)
  }

  /** One transaction is written, and the balance that follows from it. */
  ghost predicate OneTransaction(b: AppBooks, after: AppBooks, tx: PointTx) {
    && after.txs == b.txs + [tx] && PointsMove(b, after, tx.member, tx.points)
  }

  lemma AddPointsMeans(b: AppBooks, tx: PointTx)
    requires 0 <= BalanceOf(b, tx.member).points
    ensures
      match AddPoints(b, tx)
      case Failure(e) => e == NotEnoughPoints && BalanceOf(b, tx.member).points + tx.points < 0
      case Success(after) =>
        && 0 <= BalanceOf(b, tx.member).points + tx.points && OneTransaction(b, after, tx)
        && after == b.(txs := after.txs, balances := after.balances)
  {
  }

  /** A step that fails writes nothing. */
  predicate FailsClean(b: AppBooks, d: Done) {
    d.error.Some? && d.books == b
  }

  lemma AdjustingMeans(b: AppBooks, r: Rules, member: MemberId, known: bool, points: int, hasReason: bool, now: nat)
    requires PointsValid(b)
    ensures
      var d := Perform(b, r, Event(now, AdjustingPoints(member, known, points, hasReason)));
      match d.error
      case Some(e) =>
        && FailsClean(b, d)
        && ((e == MemberNotFound && !known) || (e == ZeroPoints && points == 0) || (e == ReasonRequired && !hasReason)
            || (e == NotEnoughPoints && BalanceOf(b, member).points + points < 0))
      case None =>
        && known && points != 0 && hasReason && 0 <= BalanceOf(b, member).points + points
        && OneTransaction(b, d.books, PointTx(member, Adjusted, points, FromAdmin, now))
        && d.books == b.(txs := d.books.txs, balances := d.books.balances)
  {
    assert BalanceExact(b, member);
    AddPointsMeans(b, PointTx(member, Adjusted, points, FromAdmin, now));
  }

  predicate HasTransaction(b: AppBooks, member: MemberId, source: TxSource) {
    exists tx <- b.txs :: tx.member == member && tx.source == source
  }

  lemma AwardMeans(b: AppBooks, r: Rules, member: MemberId, source: TxSource, points: nat, now: nat)
    requires PointsValid(b)
    ensures
      var d := AwardOnce(b, r, member, source, points, now);
      match d.error
      case Some(e) =>
        && FailsClean(b, d)
        && ((e == Disabled && !r.pointsEnabled) || (e == AlreadyAwarded && HasTransaction(b, member, source)))
      case None =>
        && r.pointsEnabled && !HasTransaction(b, member, source)
        && OneTransaction(b, d.books, PointTx(member, Earned, points, source, now))
        && d.books == b.(txs := d.books.txs, balances := d.books.balances)
  {
    assert BalanceExact(b, member);
    AddPointsMeans(b, PointTx(member, Earned, points, source, now));
  }

  /** Completing a profile gives 25 points and the first access ten, once a member. */
  lemma AwardsMean(b: AppBooks, r: Rules, member: MemberId, now: nat)
    requires PointsValid(b)
    ensures
      var profile := Perform(b, r, Event(now, AwardingProfile(member)));
      var access := Perform(b, r, Event(now, AwardingFirstAccess(member)));
      && (profile.error.None? <==> r.pointsEnabled && !HasTransaction(b, member, FromProfile))
      && (profile.error.None? ==> OneTransaction(b, profile.books, PointTx(member, Earned, 25, FromProfile, now)))
      && (access.error.None? <==> r.pointsEnabled && !HasTransaction(b, member, FromFirstAccess))
      && (access.error.None? ==> OneTransaction(b, access.books, PointTx(member, Earned, 10, FromFirstAccess, now)))
  {
    AwardMeans(b, r, member, FromProfile, 25, now);
    AwardMeans(b, r, member, FromFirstAccess, 10, now);
  }

  // ----- rewards and redemptions -----

  /** Of the rewards, number `i` has `moved` more in stock, if it counts its stock, and the others are as they were. */
  predicate StockMoves(rewards: seq<Reward>, rewards': seq<Reward>, i: nat, moved: int) {
    && |rewards'| == |rewards|
    && forall j | 0 <= j < |rewards| ::
         rewards'[j] == if j == i && rewards[j].stockLimit.Some? && rewards[j].currentStock.Some?
                        then rewards[j].(currentStock := Some(rewards[j].currentStock.value + moved))
                        else rewards[j]
  }

  /** The reward can be had for points at all, and the member has them. */
  predicate CanRedeem(b: AppBooks, r: Rules, member: MemberId, i: nat) {
    && r.rewardsEnabled && r.redemptionAllowed && i < |b.rewards| && b.rewards[i].active
    && (b.rewards[i].stockLimit.Some? && b.rewards[i].currentStock.Some? ==> 0 < b.rewards[i].currentStock.value)
    && b.rewards[i].pointsCost <= BalanceOf(b, member).points
  }

  lemma RedeemingMeans(b: AppBooks, r: Rules, member: MemberId, i: nat, now: nat)
    requires PointsValid(b)
    ensures
      var d := Perform(b, r, Event(now, Redeeming(member, i)));
      match d.error
      case Some(e) =>
        && FailsClean(b, d) && !CanRedeem(b, r, member, i)
        && ((e == Disabled && (!r.rewardsEnabled || !r.redemptionAllowed))
            || (e == RewardNotFound && (i < |b.rewards| ==> !b.rewards[i].active))
            || (e == OutOfStock && i < |b.rewards| && b.rewards[i].currentStock.Some?
                && b.rewards[i].currentStock.value <= 0)
            || (e == NotEnoughPoints && i < |b.rewards| && BalanceOf(b, member).points < b.rewards[i].pointsCost))
      case None =>
        && CanRedeem(b, r, member, i)
        && var cost := b.rewards[i].pointsCost;
           && OneTransaction(b, d.books, PointTx(member, Redeemed, -cost, FromRedemption(|b.redemptions|), now))
           && d.books.redemptions == b.redemptions + [Redemption(i, member, cost, Requested)]
           && StockMoves(b.rewards, d.books.rewards, i, -1)
           && d.books == b.(txs := d.books.txs, balances := d.books.balances, redemptions := d.books.redemptions,
                            rewards := d.books.rewards)
  {
    assert BalanceExact(b, member);
    if i < |b.rewards| {
      AddPointsMeans(b, PointTx(member, Redeemed, -b.rewards[i].pointsCost, FromRedemption(|b.redemptions|), now));
    }
  }

  lemma RejectingMeans(b: AppBooks, r: Rules, k: nat, now: nat)
    requires PointsValid(b)
    ensures
      var d := Perform(b, r, Event(now, Rejecting(k)));
      match d.error
      case Some(e) =>
        && FailsClean(b, d)
        && ((e == RedemptionNotFound && (k < |b.redemptions| ==> b.redemptions[k].status != Requested))
            || (e == NotEnoughPoints && k < |b.redemptions|
                && BalanceOf(b, b.redemptions[k].member).points + b.redemptions[k].pointsSpent < 0))
      case None =>
        && k < |b.redemptions| && b.redemptions[k].status == Requested
        && var was := b.redemptions[k];
           && OneTransaction(b, d.books, PointTx(was.member, Adjusted, was.pointsSpent, FromRedemption(k), now))
           && d.books.redemptions == b.redemptions[k := was.(status := Rejected)]
           && StockMoves(b.rewards, d.books.rewards, was.reward, 1)
           && d.books == b.(txs := d.books.txs, balances := d.books.balances, redemptions := d.books.redemptions,
                            rewards := d.books.rewards)
  {
    if k < |b.redemptions| {
      var was := b.redemptions[k];
      assert BalanceExact(b, was.member);
      AddPointsMeans(b, PointTx(was.member, Adjusted, was.pointsSpent, FromRedemption(k), now));
    }
  }

  /** A redemption is approved when requested and delivered when approved, and nothing else changes. */
  lemma MarkingMeans(b: AppBooks, r: Rules, k: nat, now: nat, delivering: bool)
    ensures
      var d := Perform(b, r, Event(now, if delivering then Delivering(k) else Approving(k)));
      if k < |b.redemptions| && b.redemptions[k].status == (if delivering then Approved else Requested) then
        && d.error.None?
        && d.books == b.(redemptions := b.redemptions[k := d.books.redemptions[k]])
        && d.books.redemptions[k] == b.redemptions[k].(status := if delivering then Delivered else Approved)
      else FailsClean(b, d) && d.error == Some(RedemptionNotFound)
  {
  }

  /** A new reward is on offer with its limit in stock; an edit replaces the fields that it gives. */
  lemma OfferingMeans(b: AppBooks, r: Rules, cost: int, limit: Option<int>, now: nat)
    ensures
      var d := Perform(b, r, Event(now, CreatingReward(cost, limit)));
      && d.error.None? && d.books == b.(rewards := b.rewards + [d.books.rewards[|b.rewards|]])
      && var reward := d.books.rewards[|b.rewards|];
         reward.pointsCost == cost && reward.active && reward.stockLimit == limit && reward.currentStock == limit
  {
  }

  lemma EditingMeans(b: AppBooks, r: Rules, i: nat, edit: RewardEdit, now: nat)
    ensures
      var d := Perform(b, r, Event(now, UpdatingReward(i, edit)));
      if i < |b.rewards| then
        && d.error.None? && d.books == b.(rewards := b.rewards[i := d.books.rewards[i]])
        && var was, reward := b.rewards[i], d.books.rewards[i];
           && (if edit.pointsCost.Some? then edit.pointsCost == Some(reward.pointsCost)
               else reward.pointsCost == was.pointsCost)
           && (if edit.active.Some? then edit.active == Some(reward.active) else reward.active == was.active)
           && reward.stockLimit == (if edit.stockLimit.Some? then edit.stockLimit else was.stockLimit)
           && reward.currentStock == (if edit.currentStock.Some? then edit.currentStock else was.currentStock)
      else FailsClean(b, d) && d.error == Some(RewardNotFound)
  {
  }

  // ----- redeeming and rejecting -----

  /** Over any steps a redemption keeps its reward, its member and what was spent on it. */
  predicate RedemptionKept(was: Redemption, now: Redemption) {
    now.reward == was.reward && now.member == was.member && now.pointsSpent == was.pointsSpent
  }

  ghost predicate RedemptionsKept(b: AppBooks, after: AppBooks) {
    && |b.redemptions| <= |after.redemptions| && |b.rewards| <= |after.rewards|
    && forall k | 0 <= k < |b.redemptions| :: RedemptionKept(b.redemptions[k], after.redemptions[k])
  }

  lemma {:induction false} MissionsLeaveRewards(b: AppBooks, missions: seq<Mission>, n: nat, member: MemberId,
                                                kind: MissionType, now: nat)
    requires n <= |missions|
    ensures
      var b' := AdvanceMissions(b, missions, n, member, kind, now).books;
      b'.redemptions == b.redemptions && b'.rewards == b.rewards
    decreases n
  {
    if n > 0 { MissionsLeaveRewards(b, missions, n - 1, member, kind, now); }
  }

  lemma ThenMissionLeavesRewards(d: Done, r: Rules, member: MemberId, kind: MissionType, now: nat)
    ensures
      var b' := ThenMission(d, r, member, kind, now).books;
      b'.redemptions == d.books.redemptions && b'.rewards == d.books.rewards
  {
    MissionsLeaveRewards(d.books, r.missions, |r.missions|, member, kind, now);
  }

  lemma CheckInLeavesRewards(b: AppBooks, r: Rules, member: MemberId, known: bool, now: nat)
    ensures
      var b' := DoCheckIn(b, r, member, known, now).books;
      b'.redemptions == b.redemptions && b'.rewards == b.rewards
  {
    var credited := Credit(b, PointTx(member, Earned, 5, FromCheckIn, now));
    ThenMissionLeavesRewards(credited, r, member, CheckIn, now);
    ThenMissionLeavesRewards(ThenMission(credited, r, member, CheckIn, now), r, member, DailyAccess, now);
  }

  lemma FinishLeavesRewards(b: AppBooks, r: Rules, member: MemberId, s: nat, now: nat)
    ensures
      var b' := FinishGameSession(b, r, member, s, now).books;
      b'.redemptions == b.redemptions && b'.rewards == b.rewards
  {
    if s < |b.sessions| && b.sessions[s].game < |r.games| {
      var g := b.sessions[s].game;
      var finished := b.(sessions := b.sessions[s := b.sessions[s].(status := Finished)]);
      var points := CappedPoints(b, r, member, r.games[g].pointsReward, now);
      ThenMissionLeavesRewards(RecordPlay(finished, member, g, points, now), r, member, GamePlay, now);
    }
  }

  lemma StepKeepsRedemptions(b: AppBooks, r: Rules, event: Event)
    ensures RedemptionsKept(b, Perform(b, r, event).books)
  {
    match event.step
    case CheckingIn(member, known) => CheckInLeavesRewards(b, r, member, known, event.at);
    case Playing(member, g, right) => PlayLeavesRewards(b, r, member, g, right, event.at);
    case Finishing(member, s) => FinishLeavesRewards(b, r, member, s, event.at);
    case _ =>
  }

  lemma PlayLeavesRewards(b: AppBooks, r: Rules, member: MemberId, g: nat, right: bool, now: nat)
    ensures
      var b' := PlayGame(b, r, member, g, right, now).books;
      b'.redemptions == b.redemptions && b'.rewards == b.rewards
  {
    if g < |r.games| {
      var game := r.games[g];
      var reward := if game.kind == Quiz && game.hasAnswer && !right then 0 else game.pointsReward;
      var played := RecordPlay(b, member, g, CappedPoints(b, r, member, reward, now), now);
      ThenMissionLeavesRewards(played, r, member, QuizParticipation, now);
      ThenMissionLeavesRewards(played, r, member, CheckIn, now);
      ThenMissionLeavesRewards(ThenMission(played, r, member, CheckIn, now), r, member, DailyAccess, now);
    }
  }

  lemma {:induction false} RunKeepsRedemptions(b: AppBooks, r: Rules, events: seq<Event>)
    ensures RedemptionsKept(b, Run(b, r, events))
  {
    if events != [] {
      var init := events[..|events| - 1];
      RunKeepsRedemptions(b, r, init);
      StepKeepsRedemptions(Run(b, r, init), r, events[|events| - 1]);
      var mid, end := Run(b, r, init), Run(b, r, events);
      assert forall k | 0 <= k < |b.redemptions| ::
          RedemptionKept(b.redemptions[k], mid.redemptions[k])
            && RedemptionKept(mid.redemptions[k], end.redemptions[k]);
    }
  }

  /** What a step does to the points of a member. */
  function Gained(b: AppBooks, r: Rules, event: Event, member: MemberId): int {
    BalanceOf(Perform(b, r, event).books, member).points - BalanceOf(b, member).points
  }

  function GainedForLife(b: AppBooks, r: Rules, event: Event, member: MemberId): int {
    BalanceOf(Perform(b, r, event).books, member).lifetime - BalanceOf(b, member).lifetime
  }

  /** The tables before a redemption is rejected: the redemption, and some more steps. */
  function AfterRedeeming(r: Rules, before: seq<Event>, redeeming: Event, between: seq<Event>): AppBooks {
    Run(Perform(Run(EMPTY_APP, r, before), r, redeeming).books, r, between)
  }

  lemma RedeemedIsValid(r: Rules, before: seq<Event>, redeeming: Event, between: seq<Event>)
    ensures PointsValid(Run(EMPTY_APP, r, before)) && PointsValid(AfterRedeeming(r, before, redeeming, between))
  {
    EmptyIsValid();
    RunKeepsPoints(EMPTY_APP, r, before);
    StepKeepsPoints(Run(EMPTY_APP, r, before), r, redeeming);
    RunKeepsPoints(Perform(Run(EMPTY_APP, r, before), r, redeeming).books, r, between);
  }

  lemma RedemptionStays(r: Rules, before: seq<Event>, redeeming: Event, between: seq<Event>)
    requires redeeming.step.Redeeming? && Perform(Run(EMPTY_APP, r, before), r, redeeming).error.None?
    ensures
      var b, now, i := Run(EMPTY_APP, r, before), AfterRedeeming(r, before, redeeming, between), redeeming.step.reward;
      && i < |b.rewards| <= |now.rewards| && |b.redemptions| < |now.redemptions|
      && RedemptionKept(Redemption(i, redeeming.step.member, b.rewards[i].pointsCost, Requested),
                        now.redemptions[|b.redemptions|])
  {
    var b := Run(EMPTY_APP, r, before);
    RedeemedIsValid(r, before, redeeming, between);
    RedeemingMeans(b, r, redeeming.step.member, redeeming.step.reward, redeeming.at);
    RunKeepsRedemptions(Perform(b, r, redeeming).books, r, between);
  }

  /**
   A redemption in a run costs its member what the reward cost at that moment, and its rejection, after any steps, gives
   exactly that back, to the same member and into the stock of the same reward. Lifetime points are not taken back: the
   refund raises them by that cost.
   */
  lemma RejectingGivesBack(r: Rules, before: seq<Event>, redeeming: Event, between: seq<Event>, now: nat, m: MemberId)
    requires redeeming.step.Redeeming? && Perform(Run(EMPTY_APP, r, before), r, redeeming).error.None?
    requires
      var k := |Run(EMPTY_APP, r, before).redemptions|;
      Perform(AfterRedeeming(r, before, redeeming, between), r, Event(now, Rejecting(k))).error.None?
    ensures
      var b, b', i := Run(EMPTY_APP, r, before), AfterRedeeming(r, before, redeeming, between), redeeming.step.reward;
      && i < |b.rewards|
      && (var rejecting := Event(now, Rejecting(|b.redemptions|));
          var cost := if m == redeeming.step.member then b.rewards[i].pointsCost else 0;
          && Gained(b, r, redeeming, m) == -cost && Gained(b', r, rejecting, m) == cost
          && GainedForLife(b, r, redeeming, m) == Max(-cost, 0) && GainedForLife(b', r, rejecting, m) == Max(cost, 0)
          && StockMoves(b.rewards, Perform(b, r, redeeming).books.rewards, i, -1)
          && StockMoves(b'.rewards, Perform(b', r, rejecting).books.rewards, i, 1))
  {
    RedeemedIsValid(r, before, redeeming, between);
    RedemptionStays(r, before, redeeming, between);
    RedeemingMeans(Run(EMPTY_APP, r, before), r, redeeming.step.member, redeeming.step.reward, redeeming.at);
    RejectingMeans(AfterRedeeming(r, before, redeeming, between), r, |Run(EMPTY_APP, r, before).redemptions|, now);
  }
}
