/** Daily limits of the games, over any interleaving of plays, session starts, finishes and expiries. */
module GamesInvariants {
  import opened Prelude
  import opened MemberApp
  import opened PointsInvariants

  function StartedBy(member: MemberId): GameSession -> int {
    (s: GameSession) => if s.member == member && s.status == Started then 1 else 0
  }

  function StartedOf(member: MemberId, g: nat): GameSession -> int {
    (s: GameSession) => if s.member == member && s.game == g && s.status == Started then 1 else 0
  }

  function SessionGames(r: Rules): set<nat> {
    set g: nat | g < |r.games| && r.games[g].kind == SessionGame
  }

  // ----- the invariant -----

  ghost predicate OneStartedPerGame(sessions: seq<GameSession>) {
    forall i, j | 0 <= i < j < |sessions| && sessions[i].status == Started && sessions[j].status == Started
                  && sessions[i].member == sessions[j].member :: sessions[i].game != sessions[j].game
  }

  predicate OfSessionGames(sessions: seq<GameSession>, r: Rules) {
    forall s <- sessions :: s.game in SessionGames(r)
  }

  /** Sessions started may still turn into plays on the current day and on later ones. */
  function Pending(count: int, day: nat, now: nat): int {
    if day >= DayOf(now) then count else 0
  }

  predicate DayWithin(b: AppBooks, r: Rules, now: nat, member: MemberId, day: nat) {
    && (day > DayOf(now) ==> SumBy(b.plays, PlaysOn(member, day)) == 0)
    && SumBy(b.plays, PlaysOn(member, day)) + Pending(SumBy(b.sessions, StartedBy(member)), day, now)
       <= Max(0, r.maxDailyGamePlays) + |SessionGames(r)|
    && SumBy(b.plays, EarnedOn(member, day)) <= Max(0, r.maxDailyPointsFromGames)
  }

  predicate GameDayWithin(b: AppBooks, r: Rules, now: nat, member: MemberId, g: nat, day: nat) {
    g < |r.games| ==>
      && (day > DayOf(now) ==> SumBy(b.plays, PlaysOfOn(member, g, day)) == 0)
      && SumBy(b.plays, PlaysOfOn(member, g, day)) + Pending(SumBy(b.sessions, StartedOf(member, g)), day, now)
         <= Max(0, r.games[g].maxPlaysPerDay) + 1
  }

  ghost predicate GamesValid(b: AppBooks, r: Rules, now: nat) {
    && OneStartedPerGame(b.sessions)
    && OfSessionGames(b.sessions, r)
    && (forall member: MemberId, day: nat :: DayWithin(b, r, now, member, day))
    && (forall member: MemberId, g: nat, day: nat :: GameDayWithin(b, r, now, member, g, day))
  }

  lemma EmptyGamesValid(r: Rules)
    ensures GamesValid(EMPTY_APP, r, 0)
  {
  }

  /** Time passing keeps the limits: a new day starts with no plays, and old days take none any more. */
  lemma TimePasses(b: AppBooks, r: Rules, now: nat, later: nat)
    requires GamesValid(b, r, now) && now <= later
    ensures GamesValid(b, r, later)
  {
    assert DayOf(now) <= DayOf(later);
    forall member: MemberId, day: nat
      ensures DayWithin(b, r, later, member, day)
    {
      assert DayWithin(b, r, now, member, day);
      SumByNonnegative(b.sessions, StartedBy(member));
    }
    forall member: MemberId, g: nat, day: nat
      ensures GameDayWithin(b, r, later, member, g, day)
    {
      assert GameDayWithin(b, r, now, member, g, day);
      SumByNonnegative(b.sessions, StartedOf(member, g));
    }
  }

  // ----- counting started sessions -----

  lemma {:induction false} StartedWithin(sessions: seq<GameSession>, member: MemberId, games: set<nat>)
    requires OneStartedPerGame(sessions)
    requires forall s <- sessions :: s.member == member && s.status == Started ==> s.game in games
    ensures SumBy(sessions, StartedBy(member)) <= |games|
  {
    if sessions != [] {
      var init, last := sessions[..|sessions| - 1], sessions[|sessions| - 1];
      if last.member == member && last.status == Started {
        forall s <- init | s.member == member && s.status == Started
          ensures s.game in games - {last.game}
        {
          var i :| 0 <= i < |init| && init[i] == s;
          assert sessions[i] == s;
        }
        StartedWithin(init, member, games - {last.game});
      } else {
        StartedWithin(init, member, games);
      }
    }
  }

  lemma {:induction false} StartedOfWithin(sessions: seq<GameSession>, member: MemberId, g: nat)
    requires OneStartedPerGame(sessions)
    ensures 0 <= SumBy(sessions, StartedOf(member, g)) <= 1
  {
    if sessions != [] {
      var init, last := sessions[..|sessions| - 1], sessions[|sessions| - 1];
      StartedOfWithin(init, member, g);
      if StartedOf(member, g)(last) == 1 {
        forall i | 0 <= i < |init|
          ensures StartedOf(member, g)(init[i]) == 0
        {
          assert sessions[i] == init[i];
        }
        SumByZero(init, StartedOf(member, g));
      }
    }
  }

  lemma {:induction false} CancelStartedAt(sessions: seq<GameSession>, member: MemberId, g: nat)
    ensures |CancelStarted(sessions, member, g)| == |sessions|
    ensures forall i | 0 <= i < |sessions| ::
              var s := sessions[i];
              CancelStarted(sessions, member, g)[i]
              == if s.member == member && s.game == g && s.status == Started then s.(status := SessionCancelled) else s
  {
    if sessions != [] { CancelStartedAt(sessions[..|sessions| - 1], member, g); }
  }

  lemma CancelStartedLast(sessions: seq<GameSession>, member: MemberId, g: nat, f: GameSession -> int)
    requires sessions != []
    ensures
      var init, s := sessions[..|sessions| - 1], sessions[|sessions| - 1];
      var s' := if s.member == member && s.game == g && s.status == Started then s.(status := SessionCancelled) else s;
      && SumBy(CancelStarted(sessions, member, g), f) == SumBy(CancelStarted(init, member, g), f) + f(s')
      && SumBy(sessions, f) == SumBy(init, f) + f(s)
  {
    var init, s := sessions[..|sessions| - 1], sessions[|sessions| - 1];
    var s' := if s.member == member && s.game == g && s.status == Started then s.(status := SessionCancelled) else s;
    assert CancelStarted(sessions, member, g) == CancelStarted(init, member, g) + [s'];
    SumByAppend(CancelStarted(init, member, g), s', f);
  }

  lemma {:induction false} CancelStartedCounts(sessions: seq<GameSession>, member: MemberId, g: nat, x: MemberId,
                                               h: nat)
    ensures SumBy(CancelStarted(sessions, member, g), StartedBy(x)) <= SumBy(sessions, StartedBy(x))
    ensures SumBy(CancelStarted(sessions, member, g), StartedOf(x, h))
         == if x == member && h == g then 0 else SumBy(sessions, StartedOf(x, h))
  {
    if sessions != [] {
      CancelStartedCounts(sessions[..|sessions| - 1], member, g, x, h);
      CancelStartedLast(sessions, member, g, StartedBy(x));
      CancelStartedLast(sessions, member, g, StartedOf(x, h));
    }
  }

  // ----- steps on the games -----

  lemma StartedSessions(sessions: seq<GameSession>, r: Rules, member: MemberId, g: nat, expiresAt: nat)
    requires OneStartedPerGame(sessions) && OfSessionGames(sessions, r) && g in SessionGames(r)
    ensures
      var ss := CancelStarted(sessions, member, g) + [GameSession(member, g, Started, expiresAt)];
      OneStartedPerGame(ss) && OfSessionGames(ss, r)
  {
    var kept := CancelStarted(sessions, member, g);
    CancelStartedAt(sessions, member, g);
    forall s <- kept
      ensures s.game in SessionGames(r)
    {
      var i :| 0 <= i < |kept| && kept[i] == s;
      assert sessions[i] in sessions;
    }
  }

  lemma StartKeepsDay(b: AppBooks, b': AppBooks, r: Rules, member: MemberId, session: GameSession, now: nat,
                      x: MemberId, day: nat)
    requires DayWithin(b, r, now, x, day) && b'.plays == b.plays
    requires session.member == member && session.status == Started
    requires b'.sessions == CancelStarted(b.sessions, member, session.game) + [session]
    requires SumBy(b'.sessions, StartedBy(member)) <= |SessionGames(r)|
    requires SumBy(b.plays, PlaysOn(member, DayOf(now))) < r.maxDailyGamePlays
    ensures DayWithin(b', r, now, x, day)
  {
    CancelStartedCounts(b.sessions, member, session.game, x, session.game);
    SumByAppend(CancelStarted(b.sessions, member, session.game), session, StartedBy(x));
  }

  lemma StartKeepsGameDay(b: AppBooks, b': AppBooks, r: Rules, member: MemberId, session: GameSession, now: nat,
                          x: MemberId, h: nat, day: nat)
    requires GameDayWithin(b, r, now, x, h, day) && b'.plays == b.plays && session.game < |r.games|
    requires session.member == member && session.status == Started
    requires b'.sessions == CancelStarted(b.sessions, member, session.game) + [session]
    requires SumBy(b.plays, PlaysOfOn(member, session.game, DayOf(now))) < r.games[session.game].maxPlaysPerDay
    ensures GameDayWithin(b', r, now, x, h, day)
  {
    CancelStartedCounts(b.sessions, member, session.game, x, h);
    SumByAppend(CancelStarted(b.sessions, member, session.game), session, StartedOf(x, h));
  }

  lemma StartKeeps(b: AppBooks, r: Rules, member: MemberId, g: nat, now: nat)
    requires GamesValid(b, r, now)
    ensures GamesValid(StartGameSession(b, r, member, g, now).books, r, now)
  {
    var done := StartGameSession(b, r, member, g, now);
    if done.error.None? {
      SessionAdded(b, done.books, r, GameSession(member, g, Started, now + SESSION_DURATION), now);
    }
  }

  /** A session started in place of the open ones of its game, when the limits are not reached. */
  lemma SessionAdded(b: AppBooks, b': AppBooks, r: Rules, session: GameSession, now: nat)
    requires GamesValid(b, r, now) && b'.plays == b.plays
    requires session.status == Started && session.game in SessionGames(r)
    requires b'.sessions == CancelStarted(b.sessions, session.member, session.game) + [session]
    requires SumBy(b.plays, PlaysOn(session.member, DayOf(now))) < r.maxDailyGamePlays
    requires SumBy(b.plays, PlaysOfOn(session.member, session.game, DayOf(now))) < r.games[session.game].maxPlaysPerDay
    ensures GamesValid(b', r, now)
  {
    var member := session.member;
    StartedSessions(b.sessions, r, member, session.game, session.expiresAt);
    StartedWithin(b'.sessions, member, SessionGames(r));
    forall x: MemberId, day: nat
      ensures DayWithin(b', r, now, x, day)
    {
      StartKeepsDay(b, b', r, member, session, now, x, day);
    }
    forall x: MemberId, h: nat, day: nat
      ensures GameDayWithin(b', r, now, x, h, day)
    {
      StartKeepsGameDay(b, b', r, member, session, now, x, h, day);
    }
  }

  /** One more play of points capped for the day, when the day has room for it. */
  lemma PlayAdded(b: AppBooks, b': AppBooks, r: Rules, p: Play, reward: int, now: nat)
    requires GamesValid(b, r, now) && p.at == now && p.game < |r.games|
    requires p.pointsEarned == CappedPoints(b, r, p.member, reward, now)
    requires b'.plays == b.plays + [p] && OneStartedPerGame(b'.sessions) && OfSessionGames(b'.sessions, r)
    requires forall x: MemberId :: SumBy(b'.sessions, StartedBy(x)) <= SumBy(b.sessions, StartedBy(x))
    requires forall x: MemberId, h: nat :: SumBy(b'.sessions, StartedOf(x, h)) <= SumBy(b.sessions, StartedOf(x, h))
    requires
      || (SumBy(b'.sessions, StartedBy(p.member)) < SumBy(b.sessions, StartedBy(p.member))
          && SumBy(b'.sessions, StartedOf(p.member, p.game)) < SumBy(b.sessions, StartedOf(p.member, p.game)))
      || (SumBy(b.plays, PlaysOn(p.member, DayOf(now))) < r.maxDailyGamePlays
          && SumBy(b.plays, PlaysOfOn(p.member, p.game, DayOf(now))) < r.games[p.game].maxPlaysPerDay)
    ensures GamesValid(b', r, now)
  {
    forall x: MemberId, day: nat
      ensures DayWithin(b', r, now, x, day)
    {
      assert DayWithin(b, r, now, x, day);
      SumByAppend(b.plays, p, PlaysOn(x, day));
      SumByAppend(b.plays, p, EarnedOn(x, day));
      forall s <- b'.sessions | s.member == x && s.status == Started
        ensures s.game in SessionGames(r)
      {
      }
      StartedWithin(b'.sessions, x, SessionGames(r));
    }
    forall x: MemberId, h: nat, day: nat
      ensures GameDayWithin(b', r, now, x, h, day)
    {
      assert GameDayWithin(b, r, now, x, h, day);
      SumByAppend(b.plays, p, PlaysOfOn(x, h, day));
      StartedOfWithin(b'.sessions, x, h);
    }
  }

  // ----- steps that only add points -----

  predicate SameGames(b: AppBooks, b': AppBooks) {
    b'.plays == b.plays && b'.sessions == b.sessions
  }

  lemma GamesCarryOver(b: AppBooks, b': AppBooks, r: Rules, now: nat)
    requires GamesValid(b, r, now) && SameGames(b, b')
    ensures GamesValid(b', r, now)
  {
    assert forall x: MemberId, day: nat :: DayWithin(b, r, now, x, day) ==> DayWithin(b', r, now, x, day);
    assert forall x: MemberId, g: nat, day: nat ::
        GameDayWithin(b, r, now, x, g, day) ==> GameDayWithin(b', r, now, x, g, day);
  }

  lemma {:induction false} MissionsLeaveGames(b: AppBooks, missions: seq<Mission>, n: nat, member: MemberId,
                                              kind: MissionType, now: nat)
    requires n <= |missions|
    ensures SameGames(b, AdvanceMissions(b, missions, n, member, kind, now).books)
    decreases n
  {
    if n > 0 { MissionsLeaveGames(b, missions, n - 1, member, kind, now); }
  }

  lemma ThenMissionLeavesGames(d: Done, r: Rules, member: MemberId, kind: MissionType, now: nat)
    ensures SameGames(d.books, ThenMission(d, r, member, kind, now).books)
  {
    MissionsLeaveGames(d.books, r.missions, |r.missions|, member, kind, now);
  }

  lemma AfterPlayLeavesGames(played: Done, r: Rules, member: MemberId, kind: GameKind, now: nat)
    ensures SameGames(played.books, AfterPlay(played, r, member, kind, now).books)
  {
    ThenMissionLeavesGames(played, r, member, QuizParticipation, now);
    ThenMissionLeavesGames(played, r, member, CheckIn, now);
    ThenMissionLeavesGames(ThenMission(played, r, member, CheckIn, now), r, member, DailyAccess, now);
  }

  lemma PlayGameKeeps(b: AppBooks, r: Rules, member: MemberId, g: nat, right: bool, now: nat)
    requires GamesValid(b, r, now)
    ensures GamesValid(PlayGame(b, r, member, g, right, now).books, r, now)
  {
    if r.gamesEnabled && g < |r.games| && r.games[g].active && PlayRefusal(b, r, member, g, now).None? {
      var game := r.games[g];
      var reward := if game.kind == Quiz && game.hasAnswer && !right then 0 else game.pointsReward;
      var played := RecordPlay(b, member, g, CappedPoints(b, r, member, reward, now), now);
      PlayAdded(b, played.books, r, played.books.plays[|b.plays|], reward, now);
      AfterPlayLeavesGames(played, r, member, game.kind, now);
      GamesCarryOver(played.books, PlayGame(b, r, member, g, right, now).books, r, now);
    }
  }

  lemma SessionClosed(b: AppBooks, s: nat, status: GameSessionStatus, x: MemberId, h: nat)
    requires s < |b.sessions| && b.sessions[s].status == Started && status != Started
    ensures
      var ss := b.sessions[s := b.sessions[s].(status := status)];
      && SumBy(ss, StartedBy(x)) == SumBy(b.sessions, StartedBy(x)) - StartedBy(x)(b.sessions[s])
      && SumBy(ss, StartedOf(x, h)) == SumBy(b.sessions, StartedOf(x, h)) - StartedOf(x, h)(b.sessions[s])
  {
    SumByUpdate(b.sessions, s, b.sessions[s].(status := status), StartedBy(x));
    SumByUpdate(b.sessions, s, b.sessions[s].(status := status), StartedOf(x, h));
  }

  lemma ExpireKeeps(b: AppBooks, r: Rules, s: nat, now: nat)
    requires GamesValid(b, r, now) && s < |b.sessions| && b.sessions[s].status == Started
    ensures GamesValid(b.(sessions := b.sessions[s := b.sessions[s].(status := Expired)]), r, now)
  {
    var b' := b.(sessions := b.sessions[s := b.sessions[s].(status := Expired)]);
    forall x: MemberId, day: nat
      ensures DayWithin(b', r, now, x, day)
    {
      assert DayWithin(b, r, now, x, day);
      SessionClosed(b, s, Expired, x, 0);
    }
    forall x: MemberId, h: nat, day: nat
      ensures GameDayWithin(b', r, now, x, h, day)
    {
      assert GameDayWithin(b, r, now, x, h, day);
      SessionClosed(b, s, Expired, x, h);
    }
  }

  lemma FinishGameKeeps(b: AppBooks, r: Rules, member: MemberId, s: nat, now: nat)
    requires GamesValid(b, r, now)
    ensures GamesValid(FinishGameSession(b, r, member, s, now).books, r, now)
  {
    if s < |b.sessions| && b.sessions[s].member == member && b.sessions[s].status == Started
       && b.sessions[s].game < |r.games| {
      if now > b.sessions[s].expiresAt {
        ExpireKeeps(b, r, s, now);
      } else {
        var g := b.sessions[s].game;
        var points := CappedPoints(b, r, member, r.games[g].pointsReward, now);
        var finished := b.(sessions := b.sessions[s := b.sessions[s].(status := Finished)]);
        var played := RecordPlay(finished, member, g, points, now);
        forall x: MemberId
          ensures SumBy(finished.sessions, StartedBy(x))
                  == SumBy(b.sessions, StartedBy(x)) - StartedBy(x)(b.sessions[s])
        {
          SessionClosed(b, s, Finished, x, g);
        }
        forall x: MemberId, h: nat
          ensures SumBy(finished.sessions, StartedOf(x, h))
               == SumBy(b.sessions, StartedOf(x, h)) - StartedOf(x, h)(b.sessions[s])
        {
          SessionClosed(b, s, Finished, x, h);
        }
        assert OneStartedPerGame(finished.sessions);
        PlayAdded(b, played.books, r, Play(member, g, points, now), r.games[g].pointsReward, now);
        ThenMissionLeavesGames(played, r, member, GamePlay, now);
        GamesCarryOver(played.books, FinishGameSession(b, r, member, s, now).books, r, now);
      }
    }
  }

  // ----- every step, every run -----

  lemma CheckInLeavesGames(b: AppBooks, r: Rules, member: MemberId, known: bool, now: nat)
    ensures SameGames(b, DoCheckIn(b, r, member, known, now).books)
  {
    var credited := Credit(b, PointTx(member, Earned, 5, FromCheckIn, now));
    ThenMissionLeavesGames(credited, r, member, CheckIn, now);
    ThenMissionLeavesGames(ThenMission(credited, r, member, CheckIn, now), r, member, DailyAccess, now);
  }

  lemma OtherStepsLeaveGames(b: AppBooks, r: Rules, event: Event)
    requires !event.step.Playing? && !event.step.Starting? && !event.step.Finishing?
    ensures SameGames(b, Perform(b, r, event).books)
  {
    if event.step.CheckingIn? {
      CheckInLeavesGames(b, r, event.step.member, event.step.known, event.at);
    }
  }

  lemma StepKeepsGames(b: AppBooks, r: Rules, event: Event)
    requires GamesValid(b, r, event.at)
    ensures GamesValid(Perform(b, r, event).books, r, event.at)
  {
    match event.step
    case Playing(member, g, right) => PlayGameKeeps(b, r, member, g, right, event.at);
    case Starting(member, g) => StartKeeps(b, r, member, g, event.at);
    case Finishing(member, s) => FinishGameKeeps(b, r, member, s, event.at);
    case _ =>
      OtherStepsLeaveGames(b, r, event);
      GamesCarryOver(b, Perform(b, r, event).books, r, event.at);
  }

  function Clock(events: seq<Event>): nat {
    if events == [] then 0 else events[|events| - 1].at
  }

  lemma {:induction false} RunKeepsGames(r: Rules, events: seq<Event>)
    requires InOrder(events)
    ensures GamesValid(Run(EMPTY_APP, r, events), r, Clock(events))
  {
    if events == [] {
      EmptyGamesValid(r);
    } else {
      var init, last := events[..|events| - 1], events[|events| - 1];
      RunKeepsGames(r, init);
      TimePasses(Run(EMPTY_APP, r, init), r, Clock(init), last.at);
      StepKeepsGames(Run(EMPTY_APP, r, init), r, last);
    }
  }

  // ----- the results on games -----

  /**
   In every run, for every member: the points of a day's plays stay within the daily cap, on no day are there more plays
   than the limit plus the number of session games, and today's plays with the sessions still open stay within it too.
   */
  lemma DailyLimitsHold(r: Rules, events: seq<Event>, member: MemberId, day: nat)
    requires InOrder(events)
    ensures
      var b := Run(EMPTY_APP, r, events);
      && SumBy(b.plays, EarnedOn(member, day)) <= Max(0, r.maxDailyPointsFromGames)
      && SumBy(b.plays, PlaysOn(member, day)) <= Max(0, r.maxDailyGamePlays) + |SessionGames(r)|
      && (day == DayOf(Clock(events)) ==>
            SumBy(b.plays, PlaysOn(member, day)) + SumBy(b.sessions, StartedBy(member))
            <= Max(0, r.maxDailyGamePlays) + |SessionGames(r)|)
  {
    RunKeepsGames(r, events);
    var b := Run(EMPTY_APP, r, events);
    assert DayWithin(b, r, Clock(events), member, day);
    SumByNonnegative(b.sessions, StartedBy(member));
  }

  /** Per game: one session open at most, and at most one play more than the game's own daily limit. */
  lemma GameLimitsHold(r: Rules, events: seq<Event>, member: MemberId, g: nat, day: nat)
    requires InOrder(events) && g < |r.games|
    ensures
      var b := Run(EMPTY_APP, r, events);
      && 0 <= SumBy(b.sessions, StartedOf(member, g)) <= 1
      && SumBy(b.plays, PlaysOfOn(member, g, day)) <= Max(0, r.games[g].maxPlaysPerDay) + 1
      && (day == DayOf(Clock(events)) ==>
            SumBy(b.plays, PlaysOfOn(member, g, day)) + SumBy(b.sessions, StartedOf(member, g))
            <= Max(0, r.games[g].maxPlaysPerDay) + 1)
  {
    RunKeepsGames(r, events);
    var b := Run(EMPTY_APP, r, events);
    assert GameDayWithin(b, r, Clock(events), member, g, day);
    StartedOfWithin(b.sessions, member, g);
  }

  // ----- what a passed check means -----

  ghost predicate InTimeOrder(plays: seq<Play>) {
    forall i, j | 0 <= i < j < |plays| :: plays[i].at <= plays[j].at
  }

  /** Inside the game's window, below both daily limits, and no play of the game within its cooldown. */
  predicate MayPlay(b: AppBooks, r: Rules, member: MemberId, g: nat, now: nat)
    requires g < |r.games|
  {
    var game, today := r.games[g], DayOf(now);
    && (game.startsAt.Some? ==> game.startsAt.value <= now) && (game.endsAt.Some? ==> now <= game.endsAt.value)
    && SumBy(b.plays, PlaysOfOn(member, g, today)) < game.maxPlaysPerDay
    && SumBy(b.plays, PlaysOn(member, today)) < r.maxDailyGamePlays
    && (game.cooldownHours > 0 ==>
          forall p <- b.plays | p.member == member && p.game == g :: p.at + game.cooldownHours * HOUR <= now)
  }

  lemma {:induction false} LastPlayIsNewest(plays: seq<Play>, member: MemberId, g: nat)
    requires InTimeOrder(plays)
    ensures LastPlay(plays, member, g).None? <==> forall p <- plays :: p.member != member || p.game != g
    ensures LastPlay(plays, member, g).Some? ==>
              && (exists p <- plays :: p.member == member && p.game == g && p.at == LastPlay(plays, member, g).value)
              && (forall p <- plays | p.member == member && p.game == g :: p.at <= LastPlay(plays, member, g).value)
  {
    if plays != [] {
      var init, last := plays[..|plays| - 1], plays[|plays| - 1];
      assert plays == init + [last];
      LastPlayIsNewest(init, member, g);
      forall p <- init
        ensures p.at <= last.at
      {
        var i :| 0 <= i < |init| && init[i] == p;
        assert plays[i] == p;
      }
    }
  }

  /** The checks that playing and starting share refuse exactly what is outside window, limits or cooldown. */
  lemma PassedCheckMeans(b: AppBooks, r: Rules, member: MemberId, g: nat, now: nat)
    requires g < |r.games| && InTimeOrder(b.plays)
    ensures PlayRefusal(b, r, member, g, now).None? <==> MayPlay(b, r, member, g, now)
  {
    LastPlayIsNewest(b.plays, member, g);
  }

  /** Steps that happen in order leave plays in order. */
  lemma {:induction false} PlaysStayInOrder(r: Rules, events: seq<Event>)
    requires InOrder(events)
    ensures InTimeOrder(Run(EMPTY_APP, r, events).plays)
    ensures forall p <- Run(EMPTY_APP, r, events).plays :: p.at <= Clock(events)
  {
    if events != [] {
      var init, event := events[..|events| - 1], events[|events| - 1];
      PlaysStayInOrder(r, init);
      StepAddsPlay(Run(EMPTY_APP, r, init), r, event);
      assert init != [] ==> init[|init| - 1] == events[|init| - 1];
      OneMorePlayInOrder(Run(EMPTY_APP, r, init).plays, Run(EMPTY_APP, r, events).plays, Clock(init), event.at);
    }
  }

  lemma OneMorePlayInOrder(plays: seq<Play>, plays': seq<Play>, clock: nat, at: nat)
    requires InTimeOrder(plays) && (forall p <- plays :: p.at <= clock) && clock <= at
    requires plays' == plays || (|plays'| == |plays| + 1 && plays'[..|plays|] == plays && plays'[|plays|].at == at)
    ensures InTimeOrder(plays') && forall p <- plays' :: p.at <= at
  {
    assert forall i | 0 <= i < |plays| :: plays'[i] == plays[i] && plays[i] in plays;
  }

  lemma StepAddsPlay(b: AppBooks, r: Rules, event: Event)
    ensures
      var plays := Perform(b, r, event).books.plays;
      plays == b.plays || (|plays| == |b.plays| + 1 && plays[..|b.plays|] == b.plays && plays[|b.plays|].at == event.at)
  {
    var now := event.at;
    match event.step
    case Playing(member, g, right) =>
      if r.gamesEnabled && g < |r.games| && r.games[g].active && PlayRefusal(b, r, member, g, now).None? {
        var game := r.games[g];
        var reward := if game.kind == Quiz && game.hasAnswer && !right then 0 else game.pointsReward;
        AfterPlayLeavesGames(RecordPlay(b, member, g, CappedPoints(b, r, member, reward, now), now), r, member,
                             game.kind, now);
      }
    case Starting(_, _) =>
    case Finishing(member, s) =>
      if s < |b.sessions| && b.sessions[s].member == member && b.sessions[s].status == Started
         && b.sessions[s].game < |r.games| && now <= b.sessions[s].expiresAt {
        FinishAddsPlay(b, r, member, s, now);
      }
    case _ => OtherStepsLeaveGames(b, r, event);
  }

  /** In every run in time order, a game that is played directly was inside its window, its limits and its cooldown. */
  lemma PlayedWithinLimits(r: Rules, events: seq<Event>, member: MemberId, g: nat, right: bool, now: nat)
    requires InOrder(events) && Perform(Run(EMPTY_APP, r, events), r, Event(now, Playing(member, g, right))).error.None?
    ensures g < |r.games| && r.games[g].active && MayPlay(Run(EMPTY_APP, r, events), r, member, g, now)
  {
    PlaysStayInOrder(r, events);
    PassedCheckMeans(Run(EMPTY_APP, r, events), r, member, g, now);
  }

  // ----- when a game's own limit is passed -----

  lemma FinishAddsPlay(b: AppBooks, r: Rules, member: MemberId, s: nat, now: nat)
    requires s < |b.sessions| && b.sessions[s].member == member && b.sessions[s].status == Started
    requires b.sessions[s].game < |r.games| && now <= b.sessions[s].expiresAt
    ensures
      var g := b.sessions[s].game;
      var points := CappedPoints(b, r, member, r.games[g].pointsReward, now);
      FinishGameSession(b, r, member, s, now).books.plays == b.plays + [Play(member, g, points, now)]
  {
    var g := b.sessions[s].game;
    var finished := b.(sessions := b.sessions[s := b.sessions[s].(status := Finished)]);
    var points := CappedPoints(b, r, member, r.games[g].pointsReward, now);
    ThenMissionLeavesGames(RecordPlay(finished, member, g, points, now), r, member, GamePlay, now);
  }

  /**
   A finished session adds one play to its game and to the day, so it passes the game's limit, or the limit of the
   day, exactly when that was reached.
   */
  lemma FinishPassesLimitExactlyWhen(b: AppBooks, r: Rules, member: MemberId, s: nat, now: nat)
    requires s < |b.sessions| && b.sessions[s].member == member && b.sessions[s].status == Started
    requires b.sessions[s].game < |r.games| && now <= b.sessions[s].expiresAt
    ensures
      var g, today, after := b.sessions[s].game, DayOf(now), FinishGameSession(b, r, member, s, now).books;
      && (SumBy(after.plays, PlaysOfOn(member, g, today)) <= r.games[g].maxPlaysPerDay
          <==> SumBy(b.plays, PlaysOfOn(member, g, today)) < r.games[g].maxPlaysPerDay)
      && (SumBy(after.plays, PlaysOn(member, today)) <= r.maxDailyGamePlays
          <==> SumBy(b.plays, PlaysOn(member, today)) < r.maxDailyGamePlays)
  {
    var g := b.sessions[s].game;
    FinishAddsPlay(b, r, member, s, now);
    var points := CappedPoints(b, r, member, r.games[g].pointsReward, now);
    SumByAppend(b.plays, Play(member, g, points, now), PlaysOfOn(member, g, DayOf(now)));
    SumByAppend(b.plays, Play(member, g, points, now), PlaysOn(member, DayOf(now)));
  }

  const ONE_PLAY_GAME := Game(SessionGame, true, 5, 1, 0, None, None, false)
  const ONE_GAME := Rules(true, true, false, false, false, 5, 50, [ONE_PLAY_GAME], [])

  function StartPlayFinish(member: MemberId): seq<Event> {
    [Event(0, Starting(member, 0)), Event(1, Playing(member, 0, true)), Event(2, Finishing(member, 0))]
  }

  lemma StartFirst(member: MemberId)
    ensures Run(EMPTY_APP, ONE_GAME, StartPlayFinish(member)[..1])
         == EMPTY_APP.(sessions := [GameSession(member, 0, Started, SESSION_DURATION)])
  {
    var events := StartPlayFinish(member);
    assert events[..1][..0] == [];
    assert Run(EMPTY_APP, ONE_GAME, []) == EMPTY_APP;
  }

  lemma ThenPlay(member: MemberId)
    ensures Run(EMPTY_APP, ONE_GAME, StartPlayFinish(member)[..2]).plays == [Play(member, 0, 5, 1)]
    ensures Run(EMPTY_APP, ONE_GAME, StartPlayFinish(member)[..2]).sessions
         == [GameSession(member, 0, Started, SESSION_DURATION)]
  {
    var events := StartPlayFinish(member);
    StartFirst(member);
    assert events[..2][..1] == events[..1];
    var b := Run(EMPTY_APP, ONE_GAME, events[..1]);
    assert PlayRefusal(b, ONE_GAME, member, 0, 1).None?;
    assert CappedPoints(b, ONE_GAME, member, 5, 1) == 5;
  }

  /** A run that passes it: a session is started, the game is played directly, and the session is finished. */
  lemma {:induction false} LimitPassedByOne(member: MemberId)
    ensures InOrder(StartPlayFinish(member)) && ONE_PLAY_GAME.maxPlaysPerDay == 1
    ensures SumBy(Run(EMPTY_APP, ONE_GAME, StartPlayFinish(member)).plays, PlaysOfOn(member, 0, 0)) == 2
  {
    var events := StartPlayFinish(member);
    ThenPlay(member);
    var b := Run(EMPTY_APP, ONE_GAME, events[..2]);
    assert Run(EMPTY_APP, ONE_GAME, events) == FinishGameSession(b, ONE_GAME, member, 0, 2).books;
    PlayedTwice(b, member);
  }

  lemma PlayedTwice(b: AppBooks, member: MemberId)
    requires b.plays == [Play(member, 0, 5, 1)] && b.sessions == [GameSession(member, 0, Started, SESSION_DURATION)]
    ensures SumBy(FinishGameSession(b, ONE_GAME, member, 0, 2).books.plays, PlaysOfOn(member, 0, 0)) == 2
  {
    var points := CappedPoints(b, ONE_GAME, member, 5, 2);
    FinishAddsPlay(b, ONE_GAME, member, 0, 2);
    SumByAppend([], Play(member, 0, 5, 1), PlaysOfOn(member, 0, 0));
    assert [] + [Play(member, 0, 5, 1)] == b.plays;
    SumByAppend(b.plays, Play(member, 0, points, 2), PlaysOfOn(member, 0, 0));
  }

  const TWO_GAMES := Rules(true, true, false, false, false, 1, 50, [ONE_PLAY_GAME, ONE_PLAY_GAME], [])

  function StartBothFinishBoth(member: MemberId): seq<Event> {
    [Event(0, Starting(member, 0)), Event(1, Starting(member, 1)),
     Event(2, Finishing(member, 0)), Event(3, Finishing(member, 1))]
  }

  lemma RunOneMore(r: Rules, events: seq<Event>, n: nat)
    requires n < |events|
    ensures Run(EMPTY_APP, r, events[..n + 1]) == Perform(Run(EMPTY_APP, r, events[..n]), r, events[n]).books
  {
    assert events[..n + 1][..n] == events[..n];
  }

  lemma BothStarted(member: MemberId)
    ensures
      var b := Run(EMPTY_APP, TWO_GAMES, StartBothFinishBoth(member)[..2]);
      && b.plays == [] && |b.sessions| == 2
      && b.sessions[0] == GameSession(member, 0, Started, SESSION_DURATION)
      && b.sessions[1] == GameSession(member, 1, Started, 1 + SESSION_DURATION)
  {
    var events := StartBothFinishBoth(member);
    RunOneMore(TWO_GAMES, events, 0);
    RunOneMore(TWO_GAMES, events, 1);
    var first := GameSession(member, 0, Started, SESSION_DURATION);
    assert CancelStarted([first], member, 1) == [first];
    assert Run(EMPTY_APP, TWO_GAMES, events[..1]).sessions == [first];
  }

  lemma FinishAgain(b: AppBooks, member: MemberId, s: nat, now: nat)
    requires s < |b.sessions| && b.sessions[s].member == member && b.sessions[s].status == Started
    requires b.sessions[s].game < 2 && now <= b.sessions[s].expiresAt && DayOf(now) == 0
    ensures
      var after := FinishGameSession(b, TWO_GAMES, member, s, now).books;
      && SumBy(after.plays, PlaysOn(member, 0)) == SumBy(b.plays, PlaysOn(member, 0)) + 1
      && after.sessions == b.sessions[s := b.sessions[s].(status := Finished)]
  {
    var g := b.sessions[s].game;
    FinishAddsPlay(b, TWO_GAMES, member, s, now);
    SumByAppend(b.plays, Play(member, g, CappedPoints(b, TWO_GAMES, member, 5, now), now), PlaysOn(member, 0));
  }

  lemma BothFinished(b: AppBooks, member: MemberId)
    requires b.plays == [] && |b.sessions| == 2
    requires b.sessions[0] == GameSession(member, 0, Started, SESSION_DURATION)
    requires b.sessions[1] == GameSession(member, 1, Started, 1 + SESSION_DURATION)
    ensures
      var once := FinishGameSession(b, TWO_GAMES, member, 0, 2).books;
      SumBy(FinishGameSession(once, TWO_GAMES, member, 1, 3).books.plays, PlaysOn(member, 0)) == 2
  {
    FinishAgain(b, member, 0, 2);
    FinishAgain(FinishGameSession(b, TWO_GAMES, member, 0, 2).books, member, 1, 3);
  }

  lemma RunFinishesBoth(member: MemberId)
    ensures
      var events := StartBothFinishBoth(member);
      var once := FinishGameSession(Run(EMPTY_APP, TWO_GAMES, events[..2]), TWO_GAMES, member, 0, 2).books;
      Run(EMPTY_APP, TWO_GAMES, events) == FinishGameSession(once, TWO_GAMES, member, 1, 3).books
  {
    var events := StartBothFinishBoth(member);
    RunOneMore(TWO_GAMES, events, 2);
    RunOneMore(TWO_GAMES, events, 3);
    assert events[..4] == events;
  }

  /** A run that passes the limit of the day: two games are started, and both finished, where one play is allowed. */
  lemma {:induction false} DailyLimitPassedByOne(member: MemberId)
    ensures InOrder(StartBothFinishBoth(member)) && TWO_GAMES.maxDailyGamePlays == 1
    ensures SumBy(Run(EMPTY_APP, TWO_GAMES, StartBothFinishBoth(member)).plays, PlaysOn(member, 0)) == 2
  {
    BothStarted(member);
    BothFinished(Run(EMPTY_APP, TWO_GAMES, StartBothFinishBoth(member)[..2]), member);
    RunFinishesBoth(member);
  }

  // ----- points credited -----

  function CreditedOn(member: MemberId, day: nat): PointTx -> int {
    (tx: PointTx) => if tx.member == member && tx.source.FromGame? && DayOf(tx.at) == day then tx.points else 0
  }

  function GainedOn(member: MemberId, day: nat): Play -> int {
    (p: Play) => if p.member == member && DayOf(p.at) == day then Max(0, p.pointsEarned) else 0
  }

  predicate CreditExact(b: AppBooks, member: MemberId, day: nat) {
    SumBy(b.txs, CreditedOn(member, day)) == SumBy(b.plays, GainedOn(member, day))
  }

  lemma {:induction false} MissionsLeaveCredits(b: AppBooks, missions: seq<Mission>, n: nat, member: MemberId,
                                                kind: MissionType, now: nat, x: MemberId, day: nat)
    requires n <= |missions|
    ensures
      var b' := AdvanceMissions(b, missions, n, member, kind, now).books;
      b'.plays == b.plays && SumBy(b'.txs, CreditedOn(x, day)) == SumBy(b.txs, CreditedOn(x, day))
    decreases n
  {
    if n > 0 {
      MissionsLeaveCredits(b, missions, n - 1, member, kind, now, x, day);
      var rest := AdvanceMissions(b, missions, n - 1, member, kind, now).books;
      SumByAppend(rest.txs, PointTx(member, Earned, missions[n - 1].pointsReward, FromMission(n - 1), now),
                  CreditedOn(x, day));
    }
  }

  lemma ThenMissionLeavesCredits(d: Done, r: Rules, member: MemberId, kind: MissionType, now: nat, x: MemberId,
                                 day: nat)
    requires CreditExact(d.books, x, day)
    ensures CreditExact(ThenMission(d, r, member, kind, now).books, x, day)
  {
    MissionsLeaveCredits(d.books, r.missions, |r.missions|, member, kind, now, x, day);
  }

  lemma PlayIsCounted(plays: seq<Play>, play: Play, x: MemberId, day: nat)
    ensures
      var gained := if play.member == x && DayOf(play.at) == day then Max(0, play.pointsEarned) else 0;
      SumBy(plays + [play], GainedOn(x, day)) == SumBy(plays, GainedOn(x, day)) + gained
  {
    SumByAppend(plays, play, GainedOn(x, day));
  }

  lemma GameCredits(txs: seq<PointTx>, tx: PointTx, x: MemberId, day: nat)
    requires tx.source.FromGame?
    ensures
      var credited := if tx.member == x && DayOf(tx.at) == day then tx.points else 0;
      SumBy(txs + [tx], CreditedOn(x, day)) == SumBy(txs, CreditedOn(x, day)) + credited
  {
    SumByAppend(txs, tx, CreditedOn(x, day));
  }

  /** A balance that adds up takes any gain. */
  lemma GainIsCredited(b: AppBooks, tx: PointTx)
    requires BalanceExact(b, tx.member) && 0 < tx.points
    ensures Credit(b, tx).books.txs == b.txs + [tx] && Credit(b, tx).books.plays == b.plays
  {
  }

  lemma RecordPlayCredits(b: AppBooks, member: MemberId, g: nat, points: int, now: nat, x: MemberId, day: nat)
    requires BalanceExact(b, member) && CreditExact(b, x, day)
    ensures CreditExact(RecordPlay(b, member, g, points, now).books, x, day)
  {
    PlayIsCounted(b.plays, Play(member, g, points, now), x, day);
    if points > 0 {
      var tx := PointTx(member, Earned, points, FromGame(|b.plays|), now);
      GainIsCredited(b.(plays := b.plays + [Play(member, g, points, now)]), tx);
      GameCredits(b.txs, tx, x, day);
    }
  }

  lemma PlayGameCredits(b: AppBooks, r: Rules, member: MemberId, g: nat, right: bool, now: nat, x: MemberId, day: nat)
    requires BalanceExact(b, member) && CreditExact(b, x, day)
    ensures CreditExact(PlayGame(b, r, member, g, right, now).books, x, day)
  {
    if r.gamesEnabled && g < |r.games| && r.games[g].active && PlayRefusal(b, r, member, g, now).None? {
      var game := r.games[g];
      var reward := if game.kind == Quiz && game.hasAnswer && !right then 0 else game.pointsReward;
      var points := CappedPoints(b, r, member, reward, now);
      RecordPlayCredits(b, member, g, points, now, x, day);
      AfterPlayLeavesCredits(RecordPlay(b, member, g, points, now), r, member, game.kind, now, x, day);
    }
  }

  lemma AfterPlayLeavesCredits(played: Done, r: Rules, member: MemberId, kind: GameKind, now: nat, x: MemberId,
                               day: nat)
    requires CreditExact(played.books, x, day)
    ensures CreditExact(AfterPlay(played, r, member, kind, now).books, x, day)
  {
    ThenMissionLeavesCredits(played, r, member, QuizParticipation, now, x, day);
    ThenMissionLeavesCredits(played, r, member, CheckIn, now, x, day);
    ThenMissionLeavesCredits(ThenMission(played, r, member, CheckIn, now), r, member, DailyAccess, now, x, day);
  }

  lemma FinishCredits(b: AppBooks, r: Rules, member: MemberId, s: nat, now: nat, x: MemberId, day: nat)
    requires BalanceExact(b, member) && CreditExact(b, x, day)
    ensures CreditExact(FinishGameSession(b, r, member, s, now).books, x, day)
  {
    if s < |b.sessions| && b.sessions[s].member == member && b.sessions[s].status == Started
       && b.sessions[s].game < |r.games| && now <= b.sessions[s].expiresAt {
      var g := b.sessions[s].game;
      var points := CappedPoints(b, r, member, r.games[g].pointsReward, now);
      var finished := b.(sessions := b.sessions[s := b.sessions[s].(status := Finished)]);
      RecordPlayCredits(finished, member, g, points, now, x, day);
      ThenMissionLeavesCredits(RecordPlay(finished, member, g, points, now), r, member, GamePlay, now, x, day);
    }
  }

  lemma CheckInCredits(b: AppBooks, r: Rules, member: MemberId, known: bool, now: nat, x: MemberId, day: nat)
    requires CreditExact(b, x, day)
    ensures CreditExact(DoCheckIn(b, r, member, known, now).books, x, day)
  {
    var tx := PointTx(member, Earned, 5, FromCheckIn, now);
    SumByAppend(b.txs, tx, CreditedOn(x, day));
    ThenMissionLeavesCredits(Credit(b, tx), r, member, CheckIn, now, x, day);
    ThenMissionLeavesCredits(ThenMission(Credit(b, tx), r, member, CheckIn, now), r, member, DailyAccess, now, x, day);
  }

  /** No play, and at most one transaction, which is not a game's. */
  predicate QuietChange(b: AppBooks, b': AppBooks) {
    && b'.plays == b.plays
    && (b'.txs == b.txs
        || (|b'.txs| == |b.txs| + 1 && b'.txs == b.txs + [b'.txs[|b.txs|]] && !b'.txs[|b.txs|].source.FromGame?))
  }

  lemma QuietStepsAreQuiet(b: AppBooks, r: Rules, event: Event)
    requires !event.step.Playing? && !event.step.Finishing? && !event.step.CheckingIn?
    ensures QuietChange(b, Perform(b, r, event).books)
  {
  }

  lemma QuietChangeCredits(b: AppBooks, b': AppBooks, x: MemberId, day: nat)
    requires QuietChange(b, b') && CreditExact(b, x, day)
    ensures CreditExact(b', x, day)
  {
    if b'.txs != b.txs { SumByAppend(b.txs, b'.txs[|b.txs|], CreditedOn(x, day)); }
  }

  lemma StepCredits(b: AppBooks, r: Rules, event: Event, x: MemberId, day: nat)
    requires CreditExact(b, x, day) && forall member: MemberId :: BalanceExact(b, member)
    ensures CreditExact(Perform(b, r, event).books, x, day)
  {
    match event.step
    case Playing(member, g, right) => PlayGameCredits(b, r, member, g, right, event.at, x, day);
    case Finishing(member, s) => FinishCredits(b, r, member, s, event.at, x, day);
    case CheckingIn(member, known) => CheckInCredits(b, r, member, known, event.at, x, day);
    case _ =>
      QuietStepsAreQuiet(b, r, event);
      QuietChangeCredits(b, Perform(b, r, event).books, x, day);
  }

  lemma {:induction false} RunCredits(r: Rules, events: seq<Event>, x: MemberId, day: nat)
    ensures CreditExact(Run(EMPTY_APP, r, events), x, day)
  {
    if events != [] {
      var init := events[..|events| - 1];
      RunCredits(r, init, x, day);
      PointsInvariants.EmptyIsValid();
      RunKeepsPoints(EMPTY_APP, r, init);
      StepCredits(Run(EMPTY_APP, r, init), r, events[|events| - 1], x, day);
    }
  }

  /** Play rows never cost points when no game does. */
  lemma {:induction false} RunGains(r: Rules, events: seq<Event>)
    requires forall game <- r.games :: 0 <= game.pointsReward
    ensures forall p <- Run(EMPTY_APP, r, events).plays :: 0 <= p.pointsEarned
  {
    if events != [] {
      var init, event := events[..|events| - 1], events[|events| - 1];
      RunGains(r, init);
      var b := Run(EMPTY_APP, r, init);
      match event.step
      case Playing(member, g, right) => PlayGains(b, r, member, g, right, event.at);
      case Starting(_, _) =>
      case Finishing(member, s) => FinishGains(b, r, member, s, event.at);
      case _ => OtherStepsLeaveGames(b, r, event);
    }
  }

  lemma PlayGains(b: AppBooks, r: Rules, member: MemberId, g: nat, right: bool, now: nat)
    requires (forall game <- r.games :: 0 <= game.pointsReward) && forall p <- b.plays :: 0 <= p.pointsEarned
    ensures forall p <- PlayGame(b, r, member, g, right, now).books.plays :: 0 <= p.pointsEarned
  {
    if r.gamesEnabled && g < |r.games| && r.games[g].active && PlayRefusal(b, r, member, g, now).None? {
      var game := r.games[g];
      assert game in r.games;
      var reward := if game.kind == Quiz && game.hasAnswer && !right then 0 else game.pointsReward;
      var played := RecordPlay(b, member, g, CappedPoints(b, r, member, reward, now), now);
      AfterPlayLeavesGames(played, r, member, game.kind, now);
    }
  }

  lemma FinishGains(b: AppBooks, r: Rules, member: MemberId, s: nat, now: nat)
    requires (forall game <- r.games :: 0 <= game.pointsReward) && forall p <- b.plays :: 0 <= p.pointsEarned
    ensures forall p <- FinishGameSession(b, r, member, s, now).books.plays :: 0 <= p.pointsEarned
  {
    if s < |b.sessions| && b.sessions[s].game < |r.games| {
      var g := b.sessions[s].game;
      assert r.games[g] in r.games;
      var finished := b.(sessions := b.sessions[s := b.sessions[s].(status := Finished)]);
      var played := RecordPlay(finished, member, g, CappedPoints(b, r, member, r.games[g].pointsReward, now), now);
      ThenMissionLeavesGames(played, r, member, GamePlay, now);
    }
  }

  /** The points games credit to a member in a day stay within the cap, as long as no game costs points. */
  lemma CreditedWithinCap(r: Rules, events: seq<Event>, member: MemberId, day: nat)
    requires InOrder(events) && forall game <- r.games :: 0 <= game.pointsReward
    ensures SumBy(Run(EMPTY_APP, r, events).txs, CreditedOn(member, day)) <= Max(0, r.maxDailyPointsFromGames)
  {
    RunCredits(r, events, member, day);
    RunGains(r, events);
    DailyLimitsHold(r, events, member, day);
    var plays := Run(EMPTY_APP, r, events).plays;
    forall i | 0 <= i < |plays|
      ensures GainedOn(member, day)(plays[i]) == EarnedOn(member, day)(plays[i])
    {
      assert plays[i] in plays;
    }
    SumByEqual(plays, GainedOn(member, day), EarnedOn(member, day));
  }
}
