/** What the figures of a session's summary stand for: each of them is a total over documents or manual movements. */
module SummaryTheorems {
  import opened Prelude
  import opened CashLedger
  import opened CashSummaries
  import opened StockLedger
  import opened Club
  import opened ClubInvariants
  import opened ClubTheorems
  import opened CashEffects
  import Cash = CashInvariants

  // ----- totals by type -----

  /** The amounts of one type in a session, of movements made by hand or of the others. */
  function OfKind(kind: CashType, s: nat, byHand: bool): CashMovement -> int {
    (m: CashMovement) => if m.session == s && m.kind == kind && (m.origin == Manual) == byHand then m.amount else 0
  }

  function PaidIn(s: nat): Sale -> int {
    (sale: Sale) => if sale.session == s then sale.amountPaid else 0
  }

  function PaidOutIn(s: nat): Payout -> int {
    (p: Payout) => if p.session == s then p.amount else 0
  }

  /** What the movements of a type that are not made by hand should come to. */
  function Documented(b: CashBooks, kind: CashType, s: nat): int {
    match kind
    case SaleCashIn => SumBy(b.sales, PaidIn(s))
    case ReceivableCashIn => SumBy(b.collected, Cash.CollectedIn(s))
    case ThirdPartyCashOut => SumBy(b.payouts, PaidOutIn(s))
    case CorrectionIn => SumBy(b.payouts, Cash.PayoutsUndone(s))
    case CorrectionOut => SumBy(b.sales, Cash.SalesUndone(s))
    case _ => 0
  }

  predicate KindTraced(b: CashBooks, kind: CashType, s: nat) {
    SumBy(b.movements, OfKind(kind, s, false)) == Documented(b, kind, s)
    && (kind !in {CashIn, CorrectionIn, Withdrawal, Expense, CorrectionOut} ==>
          SumBy(b.movements, OfKind(kind, s, true)) == 0)
  }

  lemma ContributionOfKind(session: nat, k: nat, paid: nat, kind: CashType, s: nat)
    ensures SumBy(Cash.Contribution(session, k, paid), OfKind(kind, s, true)) == 0
    ensures SumBy(Cash.Contribution(session, k, paid), OfKind(kind, s, false))
         == if kind == SaleCashIn && s == session then paid else 0
  {
    if paid > 0 {
      var m := CashMovement(session, Some(k), SaleCashIn, paid, SaleContribution);
      SumByAppend([], m, OfKind(kind, s, true));
      SumByAppend([], m, OfKind(kind, s, false));
      assert [] + [m] == Cash.Contribution(session, k, paid);
    }
  }

  /** More movements and documents of one kind keep the kind traced when they come to the same. */
  lemma TracedTogether(b: CashBooks, b': CashBooks, kind: CashType, s: nat, moved: int)
    requires KindTraced(b, kind, s) && Documented(b', kind, s) == Documented(b, kind, s) + moved
    requires SumBy(b'.movements, OfKind(kind, s, false)) == SumBy(b.movements, OfKind(kind, s, false)) + moved
    requires SumBy(b'.movements, OfKind(kind, s, true)) == SumBy(b.movements, OfKind(kind, s, true))
    ensures KindTraced(b', kind, s)
  {
  }

  lemma SaleDocuments(b: CashBooks, b': CashBooks, sale: Sale, kind: CashType, s: nat)
    requires b'.sales == b.sales + [sale] && b'.collected == b.collected && b'.payouts == b.payouts
    requires sale.status == Completed
    ensures Documented(b', kind, s)
         == Documented(b, kind, s) + if kind == SaleCashIn && s == sale.session then sale.amountPaid else 0
  {
    SumByAppend(b.sales, sale, PaidIn(s));
    SumByAppend(b.sales, sale, Cash.SalesUndone(s));
  }

  lemma PostingTraces(b: CashBooks, session: nat, st: Settlement, kind: CashType, s: nat)
    requires KindTraced(b, kind, s) && 0 <= st.amountPaid
    ensures KindTraced(PostSale(b, session, st), kind, s)
  {
    var sale := Sale(session, st.total, st.amountPaid, st.amountPending, st.status, st.saleType, Completed);
    var b', paid := PostSale(b, session, st), Cash.Contribution(session, |b.sales|, st.amountPaid);
    SaleDocuments(b, b', sale, kind, s);
    ContributionOfKind(session, |b.sales|, st.amountPaid, kind, s);
    SumByConcat(b.movements, paid, OfKind(kind, s, false));
    SumByConcat(b.movements, paid, OfKind(kind, s, true));
    assert b'.movements == b.movements + paid;
    TracedTogether(b, b', kind, s, if kind == SaleCashIn && s == session then st.amountPaid else 0);
  }

  lemma {:induction false} CorrectionsOfKind(movements: seq<CashMovement>, k: nat, session: nat, kind: CashType, s: nat)
    ensures SumBy(Corrections(movements, k, session), OfKind(kind, s, true)) == 0
    ensures SumBy(Corrections(movements, k, session), OfKind(kind, s, false))
         == if kind == CorrectionOut && s == session then SumBy(movements, Cash.ContributionsTo(k)) else 0
  {
    if movements != [] {
      var init, m := movements[..|movements| - 1], movements[|movements| - 1];
      CorrectionsOfKind(init, k, session, kind, s);
      if IsContribution(m, k) {
        var c := CashMovement(session, Some(k), CorrectionOut, m.amount, SaleCancellation);
        SumByAppend(Corrections(init, k, session), c, OfKind(kind, s, true));
        SumByAppend(Corrections(init, k, session), c, OfKind(kind, s, false));
      }
    }
  }

  lemma ReversingTraces(b: CashBooks, k: nat, kind: CashType, s: nat)
    requires Cash.Valid(b) && CancelRefusal(b, k).None? && KindTraced(b, kind, s)
    ensures KindTraced(ReverseSale(b, k), kind, s)
  {
    var sale := b.sales[k];
    assert Cash.SaleTraced(b.movements, b.sales, k);
    CorrectionsOfKind(b.movements, k, sale.session, kind, s);
    SumByConcat(b.movements, Corrections(b.movements, k, sale.session), OfKind(kind, s, true));
    SumByConcat(b.movements, Corrections(b.movements, k, sale.session), OfKind(kind, s, false));
    SumByUpdate(b.sales, k, sale.(status := Cancelled), PaidIn(s));
    SumByUpdate(b.sales, k, sale.(status := Cancelled), Cash.SalesUndone(s));
  }

  lemma OneMoreOfKind(b: CashBooks, b': CashBooks, m: CashMovement, kind: CashType, s: nat)
    requires b'.movements == b.movements + [m]
    ensures SumBy(b'.movements, OfKind(kind, s, false))
            == SumBy(b.movements, OfKind(kind, s, false)) + OfKind(kind, s, false)(m)
    ensures SumBy(b'.movements, OfKind(kind, s, true))
            == SumBy(b.movements, OfKind(kind, s, true)) + OfKind(kind, s, true)(m)
  {
    SumByAppend(b.movements, m, OfKind(kind, s, false));
    SumByAppend(b.movements, m, OfKind(kind, s, true));
  }

  lemma CollectedDocuments(b: CashBooks, b': CashBooks, c: Collected, kind: CashType, s: nat)
    requires b'.collected == b.collected + [c] && b'.sales == b.sales && b'.payouts == b.payouts
    ensures Documented(b', kind, s)
         == Documented(b, kind, s) + if kind == ReceivableCashIn && s == c.session then c.amount else 0
  {
    SumByAppend(b.collected, c, Cash.CollectedIn(s));
  }

  lemma PayingTraces(b: CashBooks, user: UserId, r: nat, amount: int, kind: CashType, s: nat)
    requires PayReceivable(b, user, r, amount).Success? && KindTraced(b, kind, s)
    ensures KindTraced(PayReceivable(b, user, r, amount).value, kind, s)
  {
    var b', session := PayReceivable(b, user, r, amount).value, OpenSessionOf(b.sessions, user).value;
    OneMoreOfKind(b, b', CashMovement(session, None, ReceivableCashIn, amount, Collection(r)), kind, s);
    CollectedDocuments(b, b', Collected(r, session, amount), kind, s);
    TracedTogether(b, b', kind, s, if kind == ReceivableCashIn && s == session then amount else 0);
  }

  lemma PayingOutTraces(b: CashBooks, user: UserId, usable: bool, amount: int, kind: CashType, s: nat)
    requires PayThirdParty(b, user, usable, amount).Success? && KindTraced(b, kind, s)
    ensures KindTraced(PayThirdParty(b, user, usable, amount).value, kind, s)
  {
    var b' := PayThirdParty(b, user, usable, amount).value;
    OneMoreOfKind(b, b', b'.movements[|b.movements|], kind, s);
    SumByAppend(b.payouts, b'.payouts[|b.payouts|], PaidOutIn(s));
    SumByAppend(b.payouts, b'.payouts[|b.payouts|], Cash.PayoutsUndone(s));
  }

  lemma CancellingPayoutTraces(b: CashBooks, i: nat, kind: CashType, s: nat)
    requires CancelPayout(b, i).Success? && KindTraced(b, kind, s)
    ensures KindTraced(CancelPayout(b, i).value, kind, s)
  {
    var b' := CancelPayout(b, i).value;
    OneMoreOfKind(b, b', b'.movements[|b.movements|], kind, s);
    SumByUpdate(b.payouts, i, b'.payouts[i], PaidOutIn(s));
    SumByUpdate(b.payouts, i, b'.payouts[i], Cash.PayoutsUndone(s));
  }

  lemma MovingTraces(b: CashBooks, user: UserId, permissions: set<string>, kind: CashType, amount: int, k: CashType,
                     s: nat)
    requires AddMovement(b, user, permissions, kind, amount).Success? && KindTraced(b, k, s)
    ensures KindTraced(AddMovement(b, user, permissions, kind, amount).value, k, s)
  {
    var b' := AddMovement(b, user, permissions, kind, amount).value;
    OneMoreOfKind(b, b', b'.movements[|b.movements|], k, s);
  }

  lemma SellingTraces(b: Books, user: UserId, c: Counter, request: SaleRequest, kind: CashType, s: nat)
    requires Valid(b) && KindTraced(b.cash, kind, s)
    ensures KindTraced(Apply(b, Selling(user, c, request)).cash, kind, s)
  {
    if CheckSale(b, user, c, request).Success? {
      AcceptedSale(b, user, c, request);
      var (session, lines, st) := CheckSale(b, user, c, request).value;
      PostingTraces(b.cash, session, st, kind, s);
    }
  }

  lemma StepTraces(b: Books, step: Step, kind: CashType, s: nat)
    requires Valid(b) && KindTraced(b.cash, kind, s)
    ensures KindTraced(Apply(b, step).cash, kind, s)
  {
    if Perform(b, step).Success? {
      match step
      case Selling(user, c, request) => SellingTraces(b, user, c, request, kind, s);
      case CancellingSale(k) => ReversingTraces(b.cash, k, kind, s);
      case PayingReceivable(user, r, amount) => PayingTraces(b.cash, user, r, amount, kind, s);
      case PayingThirdParty(user, usable, amount) => PayingOutTraces(b.cash, user, usable, amount, kind, s);
      case CancellingPayout(i) => CancellingPayoutTraces(b.cash, i, kind, s);
      case MovingCash(user, permissions, k, amount) => MovingTraces(b.cash, user, permissions, k, amount, kind, s);
      case _ =>
    }
  }

  lemma {:induction false} RunTraces(steps: seq<Step>, kind: CashType, s: nat)
    ensures KindTraced(Reached(steps).cash, kind, s)
  {
    if steps != [] {
      var init := steps[..|steps| - 1];
      RunTraces(init, kind, s);
      ReachedIsValid(init);
      StepTraces(Reached(init), steps[|steps| - 1], kind, s);
    }
  }

  // ----- the summary -----

  lemma OneMoreFigure(movements: seq<CashMovement>, m: CashMovement, kind: CashType, s: nat)
    ensures SumByTypes(MovementsOf(movements + [m], s), {kind})
         == SumByTypes(MovementsOf(movements, s), {kind}) + if m.session == s && m.kind == kind then m.amount else 0
  {
    var of := MovementsOf(movements, s);
    assert (movements + [m])[..|movements|] == movements && (of + [m])[..|of|] == of;
  }

  /** A figure of the summary is the total of its type in the session. */
  lemma {:induction false} FigureIsTotal(movements: seq<CashMovement>, kind: CashType, s: nat)
    ensures SumByTypes(MovementsOf(movements, s), {kind})
         == SumBy(movements, OfKind(kind, s, true)) + SumBy(movements, OfKind(kind, s, false))
  {
    if movements != [] {
      var init, m := movements[..|movements| - 1], movements[|movements| - 1];
      FigureIsTotal(init, kind, s);
      OneMoreFigure(init, m, kind, s);
      SumByAppend(init, m, OfKind(kind, s, true));
      SumByAppend(init, m, OfKind(kind, s, false));
      assert movements == init + [m];
    }
  }

  lemma FigureOf(steps: seq<Step>, kind: CashType, s: nat)
    ensures
      var cash := Reached(steps).cash;
      SumByTypes(MovementsOf(cash.movements, s), {kind})
      == Documented(cash, kind, s) + if kind in {CashIn, CorrectionIn, Withdrawal, Expense, CorrectionOut}
                                     then SumBy(cash.movements, OfKind(kind, s, true)) else 0
  {
    RunTraces(steps, kind, s);
    FigureIsTotal(Reached(steps).cash.movements, kind, s);
  }

  /**
   In every reachable state the summary of a session's movements tells its documents: what its sales were paid, whether
   cancelled since or not, what was collected, what was paid out, what went back for cancelled sales and came back for
   cancelled payouts, and the manual movements by their own types.
   */
  lemma SummaryTells(steps: seq<Step>, openingCash: int, s: nat)
    ensures
      var cash := Reached(steps).cash;
      var c, p := BuildSummary(openingCash, MovementsOf(cash.movements, s)),
        BuildCashSummary(openingCash, MovementsOf(cash.movements, s));
      && c.openingCash == openingCash == p.openingCash
      && c.saleCashIn == SumBy(cash.sales, PaidIn(s)) == p.salesCashIn
      && c.receivableCashIn == SumBy(cash.collected, Cash.CollectedIn(s)) == p.receivableCashIn
      && c.thirdPartyCashOut == SumBy(cash.payouts, PaidOutIn(s)) && c.cashOut == 0
      && c.correctionsIn
         == SumBy(cash.payouts, Cash.PayoutsUndone(s)) + SumBy(cash.movements, OfKind(CorrectionIn, s, true))
      && c.correctionsOut
         == SumBy(cash.sales, Cash.SalesUndone(s)) + SumBy(cash.movements, OfKind(CorrectionOut, s, true))
      && c.manualCashIn == SumBy(cash.movements, OfKind(CashIn, s, true))
      && c.expenses == SumBy(cash.movements, OfKind(Expense, s, true))
      && c.withdrawals == SumBy(cash.movements, OfKind(Withdrawal, s, true))
  {
    FigureOf(steps, SaleCashIn, s);
    FigureOf(steps, ReceivableCashIn, s);
    FigureOf(steps, ThirdPartyCashOut, s);
    FigureOf(steps, CashOut, s);
    FigureOf(steps, CorrectionIn, s);
    FigureOf(steps, CorrectionOut, s);
    FigureOf(steps, CashIn, s);
    FigureOf(steps, Expense, s);
    FigureOf(steps, Withdrawal, s);
  }
}
