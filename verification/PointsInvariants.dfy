/** What every step of the member app keeps about points, redemptions, reward stock and missions. */
module PointsInvariants {
  import opened Prelude
  import opened MemberApp

  function PointsOf(member: MemberId): PointTx -> int {
    (tx: PointTx) => if tx.member == member then tx.points else 0
  }

  function GainsOf(member: MemberId): PointTx -> int {
    (tx: PointTx) => if tx.member == member && tx.points > 0 then tx.points else 0
  }

  function RedemptionPointsOf(member: MemberId): PointTx -> int {
    (tx: PointTx) => if tx.member == member && tx.source.FromRedemption? then tx.points else 0
  }

  function OtherPointsOf(member: MemberId): PointTx -> int {
    (tx: PointTx) => if tx.member == member && !tx.source.FromRedemption? then tx.points else 0
  }

  function SpentBy(member: MemberId): Redemption -> int {
    (d: Redemption) => if d.member == member && d.status != Rejected then d.pointsSpent else 0
  }

  function RefundsOf(k: nat): PointTx -> int {
    (tx: PointTx) => if tx.source == FromRedemption(k) && tx.kind == Adjusted then 1 else 0
  }

  function HoldsOf(i: nat): Redemption -> int {
    (d: Redemption) => if d.reward == i && d.status != Rejected then 1 else 0
  }

  function MissionTxs(i: nat, member: MemberId): PointTx -> int {
    (tx: PointTx) => if tx.source == FromMission(i) && tx.member == member then 1 else 0
  }

  function MissionPoints(i: nat, member: MemberId): PointTx -> int {
    (tx: PointTx) => if tx.source == FromMission(i) && tx.member == member then tx.points else 0
  }

  // ----- the invariants, member by member and row by row -----

  predicate BalanceExact(b: AppBooks, member: MemberId) {
    && BalanceOf(b, member).points == SumBy(b.txs, PointsOf(member)) >= 0
    && BalanceOf(b, member).lifetime == SumBy(b.txs, GainsOf(member))
    && SumBy(b.txs, RedemptionPointsOf(member)) == -SumBy(b.redemptions, SpentBy(member))
  }

  predicate RefundExact(b: AppBooks, k: nat) {
    SumBy(b.txs, RefundsOf(k)) == if k < |b.redemptions| && b.redemptions[k].status == Rejected then 1 else 0
  }

  ghost predicate PointsValid(b: AppBooks) {
    && (forall member: MemberId :: BalanceExact(b, member))
    && (forall k: nat :: RefundExact(b, k))
  }

  /** A limited reward: what is left and what is held make the limit. An unlimited one counts nothing. */
  predicate StockExact(b: AppBooks, i: nat) {
    i < |b.rewards| ==>
      var w := b.rewards[i];
      && (w.stockLimit.None? <==> w.currentStock.None?)
      && (Counted(w) ==> w.currentStock.value + SumBy(b.redemptions, HoldsOf(i)) == w.stockLimit.value)
      && (Counted(w) && w.stockLimit.value >= 0 ==> w.currentStock.value >= 0)
  }

  /** Rewards exist for their redemptions, so a new reward is not held yet. */
  predicate HeldRewardsExist(b: AppBooks) {
    forall d <- b.redemptions :: d.reward < |b.rewards|
  }

  // ----- adding points -----

  lemma AddPointsRefunds(b: AppBooks, tx: PointTx, k: nat)
    requires RefundExact(b, k) && AddPoints(b, tx).Success? && !tx.source.FromRedemption?
    ensures RefundExact(AddPoints(b, tx).value, k)
  {
    SumByAppend(b.txs, tx, RefundsOf(k));
  }

  lemma AddPointsBalances(b: AppBooks, tx: PointTx, member: MemberId)
    requires BalanceExact(b, tx.member) && BalanceExact(b, member)
    requires AddPoints(b, tx).Success? && !tx.source.FromRedemption?
    ensures BalanceExact(AddPoints(b, tx).value, member)
  {
    SumByAppend(b.txs, tx, PointsOf(member));
    SumByAppend(b.txs, tx, GainsOf(member));
    SumByAppend(b.txs, tx, RedemptionPointsOf(member));
  }

  lemma AddPointsKeeps(b: AppBooks, tx: PointTx)
    requires PointsValid(b) && AddPoints(b, tx).Success? && !tx.source.FromRedemption?
    ensures PointsValid(AddPoints(b, tx).value)
  {
    var b' := AddPoints(b, tx).value;
    forall member: MemberId
      ensures BalanceExact(b', member)
    {
      AddPointsBalances(b, tx, member);
    }
    forall k: nat
      ensures RefundExact(b', k)
    {
      AddPointsRefunds(b, tx, k);
    }
  }

  lemma CreditKeeps(b: AppBooks, tx: PointTx)
    requires PointsValid(b) && !tx.source.FromRedemption?
    ensures PointsValid(Credit(b, tx).books)
    ensures Credit(b, tx).books.redemptions == b.redemptions && Credit(b, tx).books.rewards == b.rewards
  {
    if AddPoints(b, tx).Success? { AddPointsKeeps(b, tx); }
  }

  /** Tables that points do not depend on may change. */
  lemma PointsCarryOver(b: AppBooks, b': AppBooks)
    requires PointsValid(b) && b'.balances == b.balances && b'.txs == b.txs && b'.redemptions == b.redemptions
    ensures PointsValid(b')
  {
    assert forall member: MemberId :: BalanceExact(b, member) ==> BalanceExact(b', member);
    assert forall k: nat :: RefundExact(b, k) ==> RefundExact(b', k);
  }

  lemma {:induction false} AdvanceMissionsKeeps(b: AppBooks, missions: seq<Mission>, n: nat, member: MemberId,
                                                kind: MissionType, now: nat)
    requires PointsValid(b) && n <= |missions|
    ensures
      var b' := AdvanceMissions(b, missions, n, member, kind, now).books;
      PointsValid(b') && b'.redemptions == b.redemptions && b'.rewards == b.rewards
    decreases n
  {
    if n > 0 {
      AdvanceMissionsKeeps(b, missions, n - 1, member, kind, now);
      var rest := AdvanceMissions(b, missions, n - 1, member, kind, now);
      AdvanceMissionKeeps(rest.books, n - 1, missions[n - 1], member, now);
    }
  }

  lemma AdvanceMissionKeeps(b: AppBooks, i: nat, mission: Mission, member: MemberId, now: nat)
    requires PointsValid(b)
    ensures
      var b' := AdvanceMission(b, i, mission, member, now).books;
      PointsValid(b') && b'.redemptions == b.redemptions && b'.rewards == b.rewards
  {
    var was := ProgressOf(b, i, member);
    if !was.completed {
      var progress := was.progress + 1;
      var completed := progress >= mission.targetValue;
      var row := Progress(progress, completed, if completed then mission.pointsReward else was.pointsAwarded);
      var b' := b.(progress := b.progress[(i, member) := row]);
      PointsCarryOver(b, b');
      CreditKeeps(b', PointTx(member, Earned, mission.pointsReward, FromMission(i), now));
    }
  }

  lemma ThenMissionKeeps(d: Done, r: Rules, member: MemberId, kind: MissionType, now: nat)
    requires PointsValid(d.books)
    ensures
      var b' := ThenMission(d, r, member, kind, now).books;
      PointsValid(b') && b'.redemptions == d.books.redemptions && b'.rewards == d.books.rewards
  {
    AdvanceMissionsKeeps(d.books, r.missions, |r.missions|, member, kind, now);
  }

  lemma AfterPlayKeeps(played: Done, r: Rules, member: MemberId, kind: GameKind, now: nat)
    requires PointsValid(played.books)
    ensures
      var b' := AfterPlay(played, r, member, kind, now).books;
      PointsValid(b') && b'.redemptions == played.books.redemptions && b'.rewards == played.books.rewards
  {
    ThenMissionKeeps(played, r, member, QuizParticipation, now);
    ThenMissionKeeps(played, r, member, CheckIn, now);
    ThenMissionKeeps(ThenMission(played, r, member, CheckIn, now), r, member, DailyAccess, now);
  }

  lemma RecordPlayKeeps(b: AppBooks, member: MemberId, g: nat, points: int, now: nat)
    requires PointsValid(b)
    ensures
      var b' := RecordPlay(b, member, g, points, now).books;
      PointsValid(b') && b'.redemptions == b.redemptions && b'.rewards == b.rewards
  {
    var b' := b.(plays := b.plays + [Play(member, g, points, now)]);
    PointsCarryOver(b, b');
    CreditKeeps(b', PointTx(member, Earned, points, FromGame(|b.plays|), now));
  }

  // ----- redemptions -----

  /** A transaction of a redemption, when what the member's redemptions cost moves the other way. */
  lemma RedemptionBalances(b: AppBooks, b': AppBooks, tx: PointTx, x: MemberId)
    requires BalanceExact(b, tx.member) && BalanceExact(b, x) && tx.source.FromRedemption?
    requires AddPoints(b, tx).Success?
    requires b'.txs == b.txs + [tx] && b'.balances == AddPoints(b, tx).value.balances
    requires SumBy(b'.redemptions, SpentBy(x))
             == SumBy(b.redemptions, SpentBy(x)) - (if x == tx.member then tx.points else 0)
    ensures BalanceExact(b', x)
  {
    SumByAppend(b.txs, tx, PointsOf(x));
    SumByAppend(b.txs, tx, GainsOf(x));
    SumByAppend(b.txs, tx, RedemptionPointsOf(x));
  }

  lemma RedeemKeeps(b: AppBooks, r: Rules, member: MemberId, i: nat, now: nat)
    requires PointsValid(b)
    ensures PointsValid(RedeemReward(b, r, member, i, now).books)
  {
    var done := RedeemReward(b, r, member, i, now);
    if done.error.None? {
      var b', k, tx := done.books, |b.redemptions|, done.books.txs[|b.txs|];
      forall x: MemberId
        ensures BalanceExact(b', x)
      {
        assert BalanceExact(b, x) && BalanceExact(b, member);
        SumByAppend(b.redemptions, b'.redemptions[k], SpentBy(x));
        RedemptionBalances(b, b', tx, x);
      }
      forall j: nat
        ensures RefundExact(b', j)
      {
        assert RefundExact(b, j);
        SumByAppend(b.txs, tx, RefundsOf(j));
      }
    }
  }

  lemma RejectKeeps(b: AppBooks, k: nat, now: nat)
    requires PointsValid(b)
    ensures PointsValid(RejectRedemption(b, k, now).books)
  {
    var done := RejectRedemption(b, k, now);
    if done.error.None? {
      var b', tx := done.books, done.books.txs[|b.txs|];
      forall x: MemberId
        ensures BalanceExact(b', x)
      {
        assert BalanceExact(b, x) && BalanceExact(b, tx.member);
        SumByUpdate(b.redemptions, k, b'.redemptions[k], SpentBy(x));
        RedemptionBalances(b, b', tx, x);
      }
      forall j: nat
        ensures RefundExact(b', j)
      {
        assert RefundExact(b, j);
        SumByAppend(b.txs, tx, RefundsOf(j));
      }
    }
  }

  lemma SetStatusKeeps(b: AppBooks, k: nat, from: RedemptionStatus, to: RedemptionStatus)
    requires PointsValid(b) && from != Rejected && to != Rejected
    ensures PointsValid(SetStatus(b, k, from, to).books)
  {
    var done := SetStatus(b, k, from, to);
    if done.error.None? {
      forall x: MemberId
        ensures BalanceExact(done.books, x)
      {
        assert BalanceExact(b, x);
        SumByUpdate(b.redemptions, k, done.books.redemptions[k], SpentBy(x));
      }
      assert forall j: nat :: RefundExact(b, j) ==> RefundExact(done.books, j);
    }
  }

  // ----- every step, every run -----

  /** Steps that leave rewards and redemptions alone: all but the five about them. */
  predicate TouchesRewards(step: Step) {
    || step.CreatingReward? || step.UpdatingReward? || step.Redeeming? || step.Approving? || step.Rejecting?
    || step.Delivering?
  }

  lemma StepKeepsPoints(b: AppBooks, r: Rules, event: Event)
    requires PointsValid(b)
    ensures PointsValid(Perform(b, r, event).books)
    ensures !TouchesRewards(event.step) ==>
              Perform(b, r, event).books.redemptions == b.redemptions && Perform(b, r, event).books.rewards == b.rewards
  {
    var now := event.at;
    match event.step
    case CheckingIn(member, known) => CheckInKeeps(b, r, member, known, now);
    case Playing(member, g, right) => PlayKeeps(b, r, member, g, right, now);
    case Starting(member, g) => PointsCarryOver(b, StartGameSession(b, r, member, g, now).books);
    case Finishing(member, s) => FinishKeeps(b, r, member, s, now);
    case _ => if TouchesRewards(event.step) { RewardStepKeeps(b, r, event); } else { PlainCreditKeeps(b, r, event); }
  }

  lemma RewardStepKeeps(b: AppBooks, r: Rules, event: Event)
    requires PointsValid(b) && TouchesRewards(event.step)
    ensures PointsValid(Perform(b, r, event).books)
  {
    match event.step
    case CreatingReward(cost, limit) => PointsCarryOver(b, CreateReward(b, cost, limit).books);
    case UpdatingReward(i, edit) => PointsCarryOver(b, UpdateReward(b, i, edit).books);
    case Redeeming(member, i) => RedeemKeeps(b, r, member, i, event.at);
    case Approving(k) => SetStatusKeeps(b, k, Requested, Approved);
    case Rejecting(k) => RejectKeeps(b, k, event.at);
    case Delivering(k) => SetStatusKeeps(b, k, Approved, Delivered);
    case _ =>
  }

  lemma PlainCreditKeeps(b: AppBooks, r: Rules, event: Event)
    requires PointsValid(b)
    requires event.step.AdjustingPoints? || event.step.AwardingProfile? || event.step.AwardingFirstAccess?
    ensures
      var b' := Perform(b, r, event).books;
      PointsValid(b') && b'.redemptions == b.redemptions && b'.rewards == b.rewards
  {
    match event.step
    case AdjustingPoints(member, _, points, _) =>
      CreditKeeps(b, PointTx(member, Adjusted, points, FromAdmin, event.at));
    case AwardingProfile(member) => CreditKeeps(b, PointTx(member, Earned, 25, FromProfile, event.at));
    case AwardingFirstAccess(member) => CreditKeeps(b, PointTx(member, Earned, 10, FromFirstAccess, event.at));
    case _ =>
  }

  lemma CheckInKeeps(b: AppBooks, r: Rules, member: MemberId, known: bool, now: nat)
    requires PointsValid(b)
    ensures
      var b' := DoCheckIn(b, r, member, known, now).books;
      PointsValid(b') && b'.redemptions == b.redemptions && b'.rewards == b.rewards
  {
    var credited := Credit(b, PointTx(member, Earned, 5, FromCheckIn, now));
    CreditKeeps(b, PointTx(member, Earned, 5, FromCheckIn, now));
    ThenMissionKeeps(credited, r, member, CheckIn, now);
    ThenMissionKeeps(ThenMission(credited, r, member, CheckIn, now), r, member, DailyAccess, now);
  }

  lemma PlayKeeps(b: AppBooks, r: Rules, member: MemberId, g: nat, right: bool, now: nat)
    requires PointsValid(b)
    ensures
      var b' := PlayGame(b, r, member, g, right, now).books;
      PointsValid(b') && b'.redemptions == b.redemptions && b'.rewards == b.rewards
  {
    if r.gamesEnabled && g < |r.games| && r.games[g].active && PlayRefusal(b, r, member, g, now).None? {
      var game := r.games[g];
      var reward := if game.kind == Quiz && game.hasAnswer && !right then 0 else game.pointsReward;
      var points := CappedPoints(b, r, member, reward, now);
      RecordPlayKeeps(b, member, g, points, now);
      AfterPlayKeeps(RecordPlay(b, member, g, points, now), r, member, game.kind, now);
    }
  }

  lemma FinishKeeps(b: AppBooks, r: Rules, member: MemberId, s: nat, now: nat)
    requires PointsValid(b)
    ensures
      var b' := FinishGameSession(b, r, member, s, now).books;
      PointsValid(b') && b'.redemptions == b.redemptions && b'.rewards == b.rewards
  {
    if s < |b.sessions| && b.sessions[s].game < |r.games| {
      var g := b.sessions[s].game;
      var points := CappedPoints(b, r, member, r.games[g].pointsReward, now);
      PointsCarryOver(b, b.(sessions := b.sessions[s := b.sessions[s].(status := Expired)]));
      var finished := b.(sessions := b.sessions[s := b.sessions[s].(status := Finished)]);
      PointsCarryOver(b, finished);
      RecordPlayKeeps(finished, member, g, points, now);
      ThenMissionKeeps(RecordPlay(finished, member, g, points, now), r, member, GamePlay, now);
    }
  }

  lemma {:induction false} RunKeepsPoints(b: AppBooks, r: Rules, events: seq<Event>)
    requires PointsValid(b)
    ensures PointsValid(Run(b, r, events))
  {
    if events != [] {
      RunKeepsPoints(b, r, events[..|events| - 1]);
      StepKeepsPoints(Run(b, r, events[..|events| - 1]), r, events[|events| - 1]);
    }
  }

  lemma EmptyIsValid()
    ensures PointsValid(EMPTY_APP)
  {
  }

  // ----- the results on points -----

  /**
   In every run: a member's points are the sum of their transactions and never negative, lifetime points are the sum
   of the gains, and points are what came from elsewhere less what their standing redemptions cost.
   */
  lemma PointsConserved(r: Rules, events: seq<Event>, member: MemberId)
    ensures
      var b := Run(EMPTY_APP, r, events);
      var balance := BalanceOf(b, member);
      && balance.points == SumBy(b.txs, PointsOf(member)) >= 0
      && balance.lifetime == SumBy(b.txs, GainsOf(member)) >= balance.points
      && balance.points == SumBy(b.txs, OtherPointsOf(member)) - SumBy(b.redemptions, SpentBy(member))
  {
    var b := Run(EMPTY_APP, r, events);
    EmptyIsValid();
    RunKeepsPoints(EMPTY_APP, r, events);
    assert BalanceExact(b, member);
    SumByAtMost(b.txs, PointsOf(member), GainsOf(member));
    SumBySplit(b.txs, PointsOf(member), OtherPointsOf(member), RedemptionPointsOf(member));
  }

  // ----- lifetime points over time -----

  predicate TxsGrow(b: AppBooks, b': AppBooks) {
    b.txs <= b'.txs
  }

  lemma {:induction false} MissionsGrowTxs(b: AppBooks, missions: seq<Mission>, n: nat, member: MemberId,
                                           kind: MissionType, now: nat)
    requires n <= |missions|
    ensures TxsGrow(b, AdvanceMissions(b, missions, n, member, kind, now).books)
    decreases n
  {
    if n > 0 { MissionsGrowTxs(b, missions, n - 1, member, kind, now); }
  }

  lemma ThenMissionGrowsTxs(d: Done, r: Rules, member: MemberId, kind: MissionType, now: nat)
    ensures TxsGrow(d.books, ThenMission(d, r, member, kind, now).books)
  {
    MissionsGrowTxs(d.books, r.missions, |r.missions|, member, kind, now);
  }

  lemma PlayGrowsTxs(b: AppBooks, r: Rules, member: MemberId, g: nat, right: bool, now: nat)
    ensures TxsGrow(b, PlayGame(b, r, member, g, right, now).books)
  {
    if r.gamesEnabled && g < |r.games| && r.games[g].active && PlayRefusal(b, r, member, g, now).None? {
      var game := r.games[g];
      var reward := if game.kind == Quiz && game.hasAnswer && !right then 0 else game.pointsReward;
      var played := RecordPlay(b, member, g, CappedPoints(b, r, member, reward, now), now);
      AfterPlayGrowsTxs(played, r, member, game.kind, now);
    }
  }

  lemma AfterPlayGrowsTxs(played: Done, r: Rules, member: MemberId, kind: GameKind, now: nat)
    ensures TxsGrow(played.books, AfterPlay(played, r, member, kind, now).books)
  {
    ThenMissionGrowsTxs(played, r, member, QuizParticipation, now);
    ThenMissionGrowsTxs(played, r, member, CheckIn, now);
    ThenMissionGrowsTxs(ThenMission(played, r, member, CheckIn, now), r, member, DailyAccess, now);
  }

  lemma FinishGrowsTxs(b: AppBooks, r: Rules, member: MemberId, s: nat, now: nat)
    ensures TxsGrow(b, FinishGameSession(b, r, member, s, now).books)
  {
    if s < |b.sessions| && b.sessions[s].game < |r.games| {
      var g := b.sessions[s].game;
      var points := CappedPoints(b, r, member, r.games[g].pointsReward, now);
      var finished := b.(sessions := b.sessions[s := b.sessions[s].(status := Finished)]);
      ThenMissionGrowsTxs(RecordPlay(finished, member, g, points, now), r, member, GamePlay, now);
    }
  }

  lemma StepGrowsTxs(b: AppBooks, r: Rules, event: Event)
    ensures TxsGrow(b, Perform(b, r, event).books)
  {
    match event.step
    case CheckingIn(member, known) =>
      var credited := Credit(b, PointTx(member, Earned, 5, FromCheckIn, event.at));
      ThenMissionGrowsTxs(credited, r, member, CheckIn, event.at);
      ThenMissionGrowsTxs(ThenMission(credited, r, member, CheckIn, event.at), r, member, DailyAccess, event.at);
    case Playing(member, g, right) => PlayGrowsTxs(b, r, member, g, right, event.at);
    case Finishing(member, s) => FinishGrowsTxs(b, r, member, s, event.at);
    case _ =>
  }

  lemma {:induction false} RunGrowsTxs(r: Rules, events: seq<Event>, later: seq<Event>)
    ensures TxsGrow(Run(EMPTY_APP, r, events), Run(EMPTY_APP, r, events + later))
  {
    if later == [] {
      assert events + later == events;
    } else {
      var n := |later| - 1;
      RunGrowsTxs(r, events, later[..n]);
      assert (events + later)[..|events| + n] == events + later[..n];
      StepGrowsTxs(Run(EMPTY_APP, r, events + later[..n]), r, later[n]);
    }
  }

  /** The log of transactions only grows, and lifetime points never fall, whatever happens later. */
  lemma LifetimeNeverFalls(r: Rules, events: seq<Event>, later: seq<Event>, member: MemberId)
    ensures
      var b, b' := Run(EMPTY_APP, r, events), Run(EMPTY_APP, r, events + later);
      b.txs <= b'.txs && BalanceOf(b, member).lifetime <= BalanceOf(b', member).lifetime
  {
    var b, b' := Run(EMPTY_APP, r, events), Run(EMPTY_APP, r, events + later);
    RunGrowsTxs(r, events, later);
    PointsConserved(r, events, member);
    PointsConserved(r, events + later, member);
    var more := b'.txs[|b.txs|..];
    assert b'.txs == b.txs + more;
    SumByConcat(b.txs, more, GainsOf(member));
    SumByNonnegative(more, GainsOf(member));
  }

  /** A redemption is refunded once if it was rejected, and never otherwise. */
  lemma {:induction false} RefundedAtMostOnce(r: Rules, events: seq<Event>, k: nat)
    ensures
      var b := Run(EMPTY_APP, r, events);
      SumBy(b.txs, RefundsOf(k)) == if k < |b.redemptions| && b.redemptions[k].status == Rejected then 1 else 0
  {
    EmptyIsValid();
    RunKeepsPoints(EMPTY_APP, r, events);
    assert RefundExact(Run(EMPTY_APP, r, events), k);
  }

  // ----- reward stock -----

  predicate EditsStock(step: Step, i: nat) {
    step.UpdatingReward? && step.reward == i && (step.edit.stockLimit.Some? || step.edit.currentStock.Some?)
  }

  lemma RedeemKeepsStock(b: AppBooks, r: Rules, member: MemberId, w: nat, now: nat, i: nat)
    requires HeldRewardsExist(b) && StockExact(b, i)
    ensures HeldRewardsExist(RedeemReward(b, r, member, w, now).books)
    ensures StockExact(RedeemReward(b, r, member, w, now).books, i)
  {
    var done := RedeemReward(b, r, member, w, now);
    if done.error.None? {
      SumByAppend(b.redemptions, done.books.redemptions[|b.redemptions|], HoldsOf(i));
    }
  }

  lemma RejectKeepsStock(b: AppBooks, k: nat, now: nat, i: nat)
    requires HeldRewardsExist(b) && StockExact(b, i)
    ensures HeldRewardsExist(RejectRedemption(b, k, now).books)
    ensures StockExact(RejectRedemption(b, k, now).books, i)
  {
    var done := RejectRedemption(b, k, now);
    if done.error.None? {
      assert b.redemptions[k] in b.redemptions;
      SumByUpdate(b.redemptions, k, done.books.redemptions[k], HoldsOf(i));
    }
  }

  lemma SetStatusKeepsStock(b: AppBooks, k: nat, from: RedemptionStatus, to: RedemptionStatus, i: nat)
    requires HeldRewardsExist(b) && StockExact(b, i) && from != Rejected && to != Rejected
    ensures HeldRewardsExist(SetStatus(b, k, from, to).books) && StockExact(SetStatus(b, k, from, to).books, i)
  {
    var done := SetStatus(b, k, from, to);
    if done.error.None? {
      assert b.redemptions[k] in b.redemptions;
      SumByUpdate(b.redemptions, k, done.books.redemptions[k], HoldsOf(i));
    }
  }

  lemma StepKeepsStock(b: AppBooks, r: Rules, event: Event, i: nat)
    requires PointsValid(b) && HeldRewardsExist(b) && StockExact(b, i) && !EditsStock(event.step, i)
    ensures HeldRewardsExist(Perform(b, r, event).books) && StockExact(Perform(b, r, event).books, i)
  {
    match event.step
    case CreatingReward(cost, limit) => CreateRewardKeepsStock(b, cost, limit, i);
    case UpdatingReward(w, edit) => EditKeepsStock(b, w, edit, i);
    case Redeeming(member, w) => RedeemKeepsStock(b, r, member, w, event.at, i);
    case Approving(k) => SetStatusKeepsStock(b, k, Requested, Approved, i);
    case Rejecting(k) => RejectKeepsStock(b, k, event.at, i);
    case Delivering(k) => SetStatusKeepsStock(b, k, Approved, Delivered, i);
    case _ => StepKeepsPoints(b, r, event);
  }

  lemma CreateRewardKeepsStock(b: AppBooks, cost: int, limit: Option<int>, i: nat)
    requires HeldRewardsExist(b) && StockExact(b, i)
    ensures HeldRewardsExist(CreateReward(b, cost, limit).books) && StockExact(CreateReward(b, cost, limit).books, i)
  {
    NewRewardIsFree(b);
  }

  lemma EditKeepsStock(b: AppBooks, w: nat, edit: RewardEdit, i: nat)
    requires HeldRewardsExist(b) && StockExact(b, i) && !EditsStock(UpdatingReward(w, edit), i)
    ensures HeldRewardsExist(UpdateReward(b, w, edit).books) && StockExact(UpdateReward(b, w, edit).books, i)
  {
  }

  lemma NewRewardIsFree(b: AppBooks)
    requires HeldRewardsExist(b)
    ensures SumBy(b.redemptions, HoldsOf(|b.rewards|)) == 0
  {
    forall k | 0 <= k < |b.redemptions|
      ensures HoldsOf(|b.rewards|)(b.redemptions[k]) == 0
    {
      assert b.redemptions[k] in b.redemptions;
    }
    SumByZero(b.redemptions, HoldsOf(|b.rewards|));
  }

  lemma {:induction false} RunKeepsStock(r: Rules, events: seq<Event>, i: nat)
    requires forall event <- events :: !EditsStock(event.step, i)
    ensures HeldRewardsExist(Run(EMPTY_APP, r, events)) && StockExact(Run(EMPTY_APP, r, events), i)
  {
    if events != [] {
      var init := events[..|events| - 1];
      RunKeepsStock(r, init, i);
      EmptyIsValid();
      RunKeepsPoints(EMPTY_APP, r, init);
      StepKeepsStock(Run(EMPTY_APP, r, init), r, events[|events| - 1], i);
    }
  }

  /** A reward whose stock nobody edits: its stock and its standing redemptions make its limit, at every moment. */
  lemma RewardStockConserved(r: Rules, events: seq<Event>, i: nat)
    requires forall event <- events :: !EditsStock(event.step, i)
    requires i < |Run(EMPTY_APP, r, events).rewards| && Run(EMPTY_APP, r, events).rewards[i].stockLimit.Some?
    ensures
      var b := Run(EMPTY_APP, r, events);
      && b.rewards[i].currentStock.Some?
      && b.rewards[i].currentStock.value + SumBy(b.redemptions, HoldsOf(i)) == b.rewards[i].stockLimit.value
      && (0 <= b.rewards[i].currentStock.value <==> 0 <= b.rewards[i].stockLimit.value)
  {
    RunKeepsStock(r, events, i);
    SumByNonnegative(Run(EMPTY_APP, r, events).redemptions, HoldsOf(i));
  }
}
