/** The results about every state the club's books can reach. */
module ClubTheorems {
  import opened Prelude
  import opened CashLedger
  import opened Quantity
  import opened StockLedger
  import opened Club
  import opened ClubInvariants
  import opened ClosedSessions
  import opened StockChanges
  import opened BatchSale
  import Cash = CashInvariants
  import Stock = StockInvariants

  function Reached(steps: seq<Step>): Books {
    Run(EMPTY_BOOKS, steps)
  }

  lemma ReachedIsValid(steps: seq<Step>)
    ensures Valid(Reached(steps))
  {
    EmptyIsValid();
    RunKeepsValid(EMPTY_BOOKS, steps);
  }

  // ----- cash -----

  /** The movements of every session add up to what its live documents account for. */
  lemma CashReconciles(steps: seq<Step>, s: nat)
    ensures SessionCash(Reached(steps).cash, s) == Cash.DocumentCash(Reached(steps).cash, s)
  {
    ReachedIsValid(steps);
  }

  /** A user has at most one open session, so it is the one every cash transaction finds. */
  lemma OpenSessionIsTheOne(steps: seq<Step>, s: nat, user: UserId)
    requires s < |Reached(steps).cash.sessions| && IsOpenFor(Reached(steps).cash.sessions[s], user)
    ensures OpenSessionOf(Reached(steps).cash.sessions, user) == Some(s)
  {
    ReachedIsValid(steps);
  }

  lemma StepFreezes(b: Books, step: Step, s: nat)
    requires Valid(b)
    ensures Frozen(b.cash, Apply(b, step).cash, s)
  {
    if Perform(b, step).Success? {
      match step
      case OpeningSession(user, openingCash) =>
      case ClosingSession(user, session, closingCash, settings, why) =>
      case Selling(user, c, request) =>
        AcceptedSale(b, user, c, request);
        var (session, lines, st) := CheckSale(b, user, c, request).value;
        PostSaleFreezes(b.cash, session, st, s);
      case CancellingSale(k) => ReverseSaleFreezes(b.cash, k, s);
      case CreatingReceivable(known, amount) =>
      case PayingReceivable(user, r, amount) => PayReceivableFreezes(b.cash, user, r, amount, s);
      case CancellingReceivable(r) =>
      case PayingThirdParty(user, usable, amount) => PayThirdPartyFreezes(b.cash, user, usable, amount, s);
      case CancellingPayout(i) => CancelPayoutFreezes(b.cash, i, s);
      case MovingCash(user, permissions, kind, amount) =>
        AddMovementFreezes(b.cash, user, permissions, kind, amount, s);
      case AddingStock(catalog, p, input) =>
      case AdjustingStock(catalog, p, input) =>
      case WastingStock(catalog, p, input) =>
    }
  }

  lemma {:induction false} RunFreezes(b: Books, steps: seq<Step>, s: nat)
    requires Valid(b)
    ensures Frozen(b.cash, Run(b, steps).cash, s)
  {
    if steps != [] {
      var init := steps[..|steps| - 1];
      RunFreezes(b, init, s);
      RunKeepsValid(b, init);
      StepFreezes(Run(b, init), steps[|steps| - 1], s);
    }
  }

  /**
   After a session closes its record never changes, and its cash differs from what was expected at
   closing by exactly the payouts cancelled since, less the cash of its sales cancelled since.
   */
  lemma DriftAfterClosing(b: Books, user: UserId, s: nat, closingCash: int, settings: Option<CloseSettings>, why: bool,
                          later: seq<Step>)
    requires Valid(b) && CloseSession(b.cash, user, s, closingCash, settings, why).Success?
    ensures
      var closed := Apply(b, ClosingSession(user, s, closingCash, settings, why)).cash;
      var now := Run(b, [ClosingSession(user, s, closingCash, settings, why)] + later).cash;
      && s < |now.sessions| && now.sessions[s] == closed.sessions[s] && now.sessions[s].status == Closed
      && now.sessions[s].closing.Some?
      && now.sessions[s].openingCash + SessionCash(now, s) - now.sessions[s].closing.value.expectedCash
         == (SumBy(now.payouts, Cash.PayoutsUndone(s)) - SumBy(closed.payouts, Cash.PayoutsUndone(s)))
            - (SumBy(now.sales, Cash.SalesUndone(s)) - SumBy(closed.sales, Cash.SalesUndone(s)))
  {
    var step := ClosingSession(user, s, closingCash, settings, why);
    var after := Apply(b, step);
    RunSplit(b, [step], later);
    assert [step][..0] == [];
    assert Run(b, [step]) == Apply(Run(b, []), step);
    StepKeepsValid(b, step);
    RunFreezes(after, later, s);
  }

  lemma {:induction false} RunSplit(b: Books, first: seq<Step>, later: seq<Step>)
    ensures Run(b, first + later) == Run(Run(b, first), later)
  {
    if later == [] {
      assert first + later == first;
    } else {
      var n := |later| - 1;
      RunSplit(b, first, later[..n]);
      assert (first + later)[..|first| + n] == first + later[..n];
    }
  }

  // ----- sales and receivables over time -----

  /** Sales only ever become cancelled; receivables only collect, and a cancelled one never changes. */
  predicate SaleLater(sale: Sale, now: Sale) {
    now == sale || now == sale.(status := Cancelled)
  }

  predicate ReceivableLater(r: Receivable, now: Receivable) {
    && now.sale == r.sale && now.original == r.original && r.paid <= now.paid
    && (r.status == ReceivableCancelled ==> now == r)
    && (r.status == ReceivablePaid ==> now == r || now == r.(status := ReceivableCancelled))
  }

  ghost predicate Later(b: CashBooks, now: CashBooks) {
    && |b.sales| <= |now.sales| && |b.receivables| <= |now.receivables|
    && (forall k | 0 <= k < |b.sales| :: SaleLater(b.sales[k], now.sales[k]))
    && (forall r | 0 <= r < |b.receivables| :: ReceivableLater(b.receivables[r], now.receivables[r]))
  }

  lemma StepIsLater(b: Books, step: Step)
    ensures Later(b.cash, Apply(b, step).cash)
  {
  }

  lemma {:induction false} RunIsLater(b: Books, steps: seq<Step>)
    ensures Later(b.cash, Run(b, steps).cash)
  {
    if steps != [] {
      var init := steps[..|steps| - 1];
      RunIsLater(b, init);
      StepIsLater(Run(b, init), steps[|steps| - 1]);
      var mid, end := Run(b, init).cash, Run(b, steps).cash;
      assert forall k | 0 <= k < |b.cash.sales| ::
               SaleLater(b.cash.sales[k], mid.sales[k]) && SaleLater(mid.sales[k], end.sales[k]);
      assert forall r | 0 <= r < |b.cash.receivables| ::
          ReceivableLater(b.cash.receivables[r], mid.receivables[r])
            && ReceivableLater(mid.receivables[r], end.receivables[r]);
    }
  }

  /** Whatever happens in between, a cancelled sale cannot be cancelled again. */
  lemma {:induction false} CancelledOnce(b: Books, k: nat, between: seq<Step>)
    requires CancelSale(b, k).Success?
    ensures CancelSale(Run(CancelSale(b, k).value, between), k) == Failure(SaleAlreadyCancelled)
  {
    var b' := CancelSale(b, k).value;
    RunIsLater(b', between);
    assert SaleLater(b'.cash.sales[k], Run(b', between).cash.sales[k]);
  }

  /** A cancelled receivable is never collected, reopened or cancelled again. */
  lemma {:induction false} CancelledReceivableIsFinal(b: Books, r: nat, later: seq<Step>, user: UserId, amount: nat)
    requires r < |b.cash.receivables| && b.cash.receivables[r].status == ReceivableCancelled && 0 < amount
    ensures
      var now := Run(b, later).cash;
      && r < |now.receivables| && now.receivables[r] == b.cash.receivables[r]
      && PayReceivable(now, user, r, amount) == Failure(ReceivableNotPayable)
      && CancelReceivable(now, r) == Failure(ReceivableNotCancellable)
  {
    RunIsLater(b, later);
    assert ReceivableLater(b.cash.receivables[r], Run(b, later).cash.receivables[r]);
  }

  function PaymentCount(r: nat): Collected -> int {
    (c: Collected) => if c.receivable == r then 1 else 0
  }

  /**
   What a receivable's amounts and status say in every reachable state. A receivable made by hand for a zero or
   negative amount is the case in which nothing outstanding does not mean paid.
   */
  lemma ReceivableExact(steps: seq<Step>, r: nat)
    requires r < |Reached(steps).cash.receivables|
    ensures
      var cash := Reached(steps).cash;
      var rec := cash.receivables[r];
      && rec.original == rec.paid + rec.outstanding
      && rec.paid == SumBy(cash.collected, Cash.CollectedOn(r))
      && SumBy(cash.collected, PaymentCount(r)) <= rec.paid <= Max(rec.original, 0)
      && (rec.status != ReceivableCancelled ==>
          (rec.status == ReceivablePaid <==> rec.outstanding == 0 && rec.original != 0))
      && (0 <= rec.outstanding <==> 0 <= rec.original)
  {
    ReachedIsValid(steps);
    var cash := Reached(steps).cash;
    assert Cash.PaymentTraced(cash.collected, cash.receivables, r);
    forall i | 0 <= i < |cash.collected|
      ensures PaymentCount(r)(cash.collected[i]) <= Cash.CollectedOn(r)(cash.collected[i])
    {
      assert cash.collected[i] in cash.collected;
    }
    SumByAtMost(cash.collected, PaymentCount(r), Cash.CollectedOn(r));
  }

  /** A receivable for nothing, or for less, stays open with that outstanding, and takes no payment. */
  lemma {:induction false} EmptyReceivableStaysOpen(user: UserId, owed: int, amount: nat)
    requires owed <= 0 < amount
    ensures
      var b := Reached([CreatingReceivable(true, owed)]);
      && |b.cash.receivables| == 1 && b.cash.receivables[0] == Receivable(None, owed, 0, owed, ReceivableOpen)
      && PayReceivable(b.cash, user, 0, amount) == Failure(AmountAbovePending)
  {
    var step := CreatingReceivable(true, owed);
    assert [step][..0] == [];
    assert Reached([step]) == Apply(Reached([]), step);
  }

  /** A sale on credit: what was paid at the till, what was collected and what is left make its total. */
  lemma CreditAddsUp(steps: seq<Step>, k: nat)
    requires k < |Reached(steps).cash.sales|
    ensures
      var cash := Reached(steps).cash;
      var sale := cash.sales[k];
      match ReceivableOf(cash.receivables, k)
      case None => sale.amountPending == 0 && sale.total == sale.amountPaid
      case Some(r) =>
        var rec := cash.receivables[r];
        0 < sale.amountPending && sale.total == sale.amountPaid + rec.paid + rec.outstanding && 0 <= rec.outstanding
  {
    ReachedIsValid(steps);
    var cash := Reached(steps).cash;
    if ReceivableOf(cash.receivables, k).Some? {
      var r := ReceivableOf(cash.receivables, k).value;
      assert Cash.MatchesSale(cash.receivables[r], cash.sales) && Cash.ReceivableBalanced(cash.receivables[r]);
    }
    assert Cash.SaleSettled(cash.sales[k]);
  }

  // ----- cancelling undoes -----

  /** What sale `k` has done to the stock of `p` so far: its line taken and, once cancelled, given back. */
  function StockEffect(b: Books, k: nat, p: ProductId): int {
    SumBy(b.stock.items, TakenBy(k, p)) + SumBy(b.stock.log, ReturnedFor(k, p))
  }

  /** What a sale and its cancellation leave of the stock. */
  function NetOfLine(line: Option<Line>): int {
    TakenOf(line) + GivenBack(line)
  }

  /** The weighed difference of a line, which cancelling does not give back. */
  function OverweightOf(line: Option<Line>): int {
    if line.Some? then line.value.Overweight() else 0
  }

  /** The line takes and asks for the same fraction of a gram, and not half a gram. */
  predicate SameFraction(line: Option<Line>) {
    line.Some? ==> line.value.StockQuantity() % 1000 == line.value.quantity % 1000 && !IsTie(line.value.quantity)
  }

  predicate NotWeighed(line: Option<Line>) {
    line.Some? ==> line.value.scale.None?
  }

  /** The line asks for a quantity that ends in half a gram. */
  predicate AsksHalfAGram(line: Option<Line>) {
    line.Some? && IsTie(line.value.quantity)
  }

  /**
   The weighed difference is all that a sale and its cancellation leave exactly when both round alike. Of a line that
   was not weighed they leave nothing, or one gram too much if it asked for half a gram.
   */
  lemma NetIsOverweightExactlyWhen(line: Option<Line>)
    ensures NetOfLine(line) == -OverweightOf(line) <==> SameFraction(line)
    ensures NotWeighed(line) ==> NetOfLine(line) == if AsksHalfAGram(line) then GRAM else 0
  {
    if line.Some? {
      ThereAndBack(line.value.StockQuantity(), line.value.quantity);
    }
  }

  lemma SellingPays(b: Books, user: UserId, c: Counter, request: SaleRequest, s: nat)
    requires Valid(b) && CheckSale(b, user, c, request).Success?
    ensures
      var sold, k := Apply(b, Selling(user, c, request)).cash, |b.cash.sales|;
      && |sold.sales| == k + 1 && sold.sales[k].status == Completed
      && SessionCash(sold, s)
         == SessionCash(b.cash, s) + if s == sold.sales[k].session then sold.sales[k].amountPaid else 0
  {
    AcceptedSale(b, user, c, request);
    var (session, lines, st) := CheckSale(b, user, c, request).value;
    var k := |b.cash.sales|;
    Cash.ContributionAdds(b.cash.movements, session, k, st.amountPaid, s);
    assert PostSale(b.cash, session, st).movements == b.cash.movements + Cash.Contribution(session, k, st.amountPaid);
  }

  lemma ReversingPaysBack(cash: CashBooks, k: nat, s: nat)
    requires Cash.Valid(cash) && CancelRefusal(cash, k).None?
    ensures SessionCash(ReverseSale(cash, k), s)
         == SessionCash(cash, s) - if s == cash.sales[k].session then cash.sales[k].amountPaid else 0
  {
    var session := cash.sales[k].session;
    assert Cash.SaleTraced(cash.movements, cash.sales, k);
    Cash.CorrectionsUndo(cash.movements, k, session, s);
    SumByConcat(cash.movements, Corrections(cash.movements, k, session), CashMoved(s));
  }

  predicate ReceivableIsCancelled(cash: CashBooks, k: nat) {
    var r := ReceivableOf(cash.receivables, k);
    r.Some? ==> cash.receivables[r.value].status == ReceivableCancelled
  }

  lemma CancelledSaleOwesNothing(cash: CashBooks, k: nat)
    requires Cash.Valid(cash) && IsCancelled(cash, k)
    ensures ReceivableIsCancelled(cash, k)
  {
    var r := ReceivableOf(cash.receivables, k);
    if r.Some? {
      assert Cash.MatchesSale(cash.receivables[r.value], cash.sales);
    }
  }

  lemma CancellingPaysBack(b: Books, k: nat, s: nat)
    requires Valid(b) && CancelSale(b, k).Success?
    ensures
      var sale, after := b.cash.sales[k], Apply(b, CancellingSale(k)).cash;
      && SessionCash(after, s) == SessionCash(b.cash, s) - (if s == sale.session then sale.amountPaid else 0)
      && ReceivableIsCancelled(after, k)
  {
    ReversingPaysBack(b.cash, k, s);
    Cash.ReverseSaleKeeps(b.cash, k);
    CancelledSaleOwesNothing(ReverseSale(b.cash, k), k);
  }

  lemma SecondCancelRefused(b: Books, k: nat)
    requires CancelSale(b, k).Success?
    ensures CancelSale(Apply(b, CancellingSale(k)), k) == Failure(SaleAlreadyCancelled)
  {
  }

  /** The books after a sale in a reachable state and some more steps. */
  function AfterSale(steps: seq<Step>, sale: Step, between: seq<Step>): Books {
    Run(Apply(Reached(steps), sale), between)
  }

  lemma AfterSaleIsReached(steps: seq<Step>, sale: Step, between: seq<Step>)
    ensures AfterSale(steps, sale, between) == Reached(steps + [sale] + between)
    ensures Valid(Reached(steps)) && Valid(AfterSale(steps, sale, between))
  {
    assert (steps + [sale])[..|steps|] == steps;
    RunSplit(EMPTY_BOOKS, steps + [sale], between);
    ReachedIsValid(steps);
    ReachedIsValid(steps + [sale] + between);
  }

  /** The new sale is there, whatever runs after it, and at most cancelled. */
  lemma SaleStays(steps: seq<Step>, sale: Step, between: seq<Step>)
    requires sale.Selling? && Perform(Reached(steps), sale).Success?
    ensures
      var sold, now, k := Apply(Reached(steps), sale), AfterSale(steps, sale, between), |Reached(steps).cash.sales|;
      |sold.cash.sales| == k + 1 && k < |now.cash.sales| && SaleLater(sold.cash.sales[k], now.cash.sales[k])
  {
    var sold, k := Apply(Reached(steps), sale), |Reached(steps).cash.sales|;
    RunIsLater(sold, between);
    assert SaleLater(sold.cash.sales[k], Run(sold, between).cash.sales[k]);
  }

  lemma LineKept(b: Books, steps: seq<Step>, k: nat, p: ProductId)
    requires k < |b.cash.sales|
    ensures LineOf(Run(b, steps).stock.items, k, p) == LineOf(b.stock.items, k, p)
  {
    RunAddsLines(b, steps);
    var items, later := b.stock.items, Run(b, steps).stock.items;
    assert later == items + later[|items|..];
    LineOfStays(items, later[|items|..], k, p);
  }

  /** And so is its line for `p`. */
  lemma LineStays(steps: seq<Step>, sale: Step, between: seq<Step>, p: ProductId)
    requires sale.Selling? && Perform(Reached(steps), sale).Success?
    ensures
      LineOf(AfterSale(steps, sale, between).stock.items, |Reached(steps).cash.sales|, p)
        == SoldLine(Reached(steps), sale, p)
  {
    ReachedIsValid(steps);
    SaleStays(steps, sale, []);
    SoldLineIsThere(Reached(steps), sale, p);
    LineKept(Apply(Reached(steps), sale), between, |Reached(steps).cash.sales|, p);
  }

  lemma CashOfReachedSale(steps: seq<Step>, sale: Step, s: nat)
    requires sale.Selling? && Perform(Reached(steps), sale).Success?
    ensures
      var b, sold, k := Reached(steps).cash, Apply(Reached(steps), sale).cash, |Reached(steps).cash.sales|;
      && |sold.sales| == k + 1 && sold.sales[k].status == Completed
      && SessionCash(sold, s) == SessionCash(b, s) + if s == sold.sales[k].session then sold.sales[k].amountPaid else 0
  {
    ReachedIsValid(steps);
    SellingPays(Reached(steps), sale.user, sale.counter, sale.request, s);
  }

  /**
   A sale, any steps, and its cancellation: what the two do to the cash of every session cancels out, the receivable
   if there is one is cancelled, and a second cancellation is refused.
   */
  lemma CancellingUndoesCash(steps: seq<Step>, sale: Step, between: seq<Step>, s: nat)
    requires sale.Selling? && Perform(Reached(steps), sale).Success?
    requires CancelSale(AfterSale(steps, sale, between), |Reached(steps).cash.sales|).Success?
    ensures
      var b, k := Reached(steps), |Reached(steps).cash.sales|;
      var sold, before := Apply(b, sale), AfterSale(steps, sale, between);
      var after := Apply(before, CancellingSale(k));
      && (SessionCash(sold.cash, s) - SessionCash(b.cash, s))
         + (SessionCash(after.cash, s) - SessionCash(before.cash, s)) == 0
      && ReceivableIsCancelled(after.cash, k)
      && CancelSale(after, k) == Failure(SaleAlreadyCancelled)
  {
    SaleStays(steps, sale, between);
    CashOfReachedSale(steps, sale, s);
    AfterSaleIsReached(steps, sale, between);
    CancellingPaysBack(AfterSale(steps, sale, between), |Reached(steps).cash.sales|, s);
    SecondCancelRefused(AfterSale(steps, sale, between), |Reached(steps).cash.sales|);
  }

  lemma StockOfReachedSale(steps: seq<Step>, sale: Step, p: ProductId)
    requires sale.Selling? && Perform(Reached(steps), sale).Success?
    ensures Current(Apply(Reached(steps), sale), p)
            == Current(Reached(steps), p) + TakenOf(SoldLine(Reached(steps), sale, p))
  {
    ReachedIsValid(steps);
    CurrentSold(Reached(steps), sale, p);
  }

  lemma StockOfCancelling(steps: seq<Step>, sale: Step, between: seq<Step>, k: nat, p: ProductId)
    requires CancelSale(AfterSale(steps, sale, between), k).Success?
    ensures
      var before := AfterSale(steps, sale, between);
      Current(Apply(before, CancellingSale(k)), p) == Current(before, p) + GivenBack(LineOf(before.stock.items, k, p))
  {
    AfterSaleIsReached(steps, sale, between);
    CurrentReturned(AfterSale(steps, sale, between), k, p);
  }

  /** What a sale and, any steps later, its cancellation do together to the stock of `p`. */
  function StockLeft(steps: seq<Step>, sale: Step, between: seq<Step>, p: ProductId): int
    requires sale.Selling?
  {
    var b, before := Reached(steps), AfterSale(steps, sale, between);
    var sold, after := Apply(b, sale), Apply(before, CancellingSale(|b.cash.sales|));
    (Current(sold, p) - Current(b, p)) + (Current(after, p) - Current(before, p))
  }

  /**
   A sale, any steps, and its cancellation: what the two do to the stock of every product is what the sale's line for
   it took less its requested quantity, both rounded to grams. That is the weighed difference exactly when the two
   have the same fraction of a gram, short of a half; and with no weighing, nothing exactly when the line did not ask
   for half a gram, and else a gram that nobody brought.
   */
  lemma CancellingUndoesStock(steps: seq<Step>, sale: Step, between: seq<Step>, p: ProductId)
    requires sale.Selling? && Perform(Reached(steps), sale).Success?
    requires CancelSale(AfterSale(steps, sale, between), |Reached(steps).cash.sales|).Success?
    ensures
      var line, left := SoldLine(Reached(steps), sale, p), StockLeft(steps, sale, between, p);
      && left == NetOfLine(line)
      && (left == -OverweightOf(line) <==> SameFraction(line))
      && (NotWeighed(line) ==> left == if AsksHalfAGram(line) then GRAM else 0)
  {
    StockOfReachedSale(steps, sale, p);
    StockOfCancelling(steps, sale, between, |Reached(steps).cash.sales|, p);
    LineStays(steps, sale, between, p);
    NetIsOverweightExactlyWhen(SoldLine(Reached(steps), sale, p));
  }

  /**
   In every reachable state a cancelled sale holds no cash and has no live receivable, and of the stock it keeps
   what its line took less what it gave back.
   */
  lemma CancelledSaleHolds(steps: seq<Step>, k: nat, p: ProductId)
    requires IsCancelled(Reached(steps).cash, k)
    ensures
      var b := Reached(steps);
      && SumBy(b.cash.movements, Cash.CashOfSale(k)) == 0
      && ReceivableIsCancelled(b.cash, k)
      && StockEffect(b, k, p) == NetOfLine(LineOf(b.stock.items, k, p))
  {
    ReachedIsValid(steps);
    var b := Reached(steps);
    assert Cash.SaleTraced(b.cash.movements, b.cash.sales, k);
    CancelledSaleOwesNothing(b.cash, k);
    assert ReturnTraced(b.cash, b.stock, k, p);
    OneLineSum(b.stock.items, k, p, TakenBy(k, p));
    OneLineSum(b.stock.items, k, p, RequestedBy(k, p));
  }

  /** A live sale holds its cash, and has given no stock back. */
  lemma LiveSaleHolds(steps: seq<Step>, k: nat, p: ProductId)
    requires k < |Reached(steps).cash.sales| && !IsCancelled(Reached(steps).cash, k)
    ensures SumBy(Reached(steps).cash.movements, Cash.CashOfSale(k)) == Reached(steps).cash.sales[k].amountPaid
    ensures StockEffect(Reached(steps), k, p) == SumBy(Reached(steps).stock.items, TakenBy(k, p))
  {
    ReachedIsValid(steps);
    var b := Reached(steps);
    assert Cash.SaleTraced(b.cash.movements, b.cash.sales, k);
    assert ReturnTraced(b.cash, b.stock, k, p);
  }

  // ----- the batch -----

  /** The stock an accepted sale leaves is what selling its items one at a time, in any order, leaves. */
  lemma {:induction false} SaleIsInTurn(b: Books, user: UserId, c: Counter, request: SaleRequest,
                                        order: seq<ItemRequest>)
    requires CheckSale(b, user, c, request).Success? && multiset(order) == multiset(request.items)
    ensures
      SellInTurn(b.stock.inventory, At(c), order) == Some(Apply(b, Selling(user, c, request)).stock.inventory)
  {
    CounterIsProper(c);
    AnyOrderIsTheBatch(b.stock.inventory, At(c), request.items, order);
  }

  /** If selling the items one at a time is refused, in whatever order, so is the sale. */
  lemma RefusedInTurnIsRefused(b: Books, user: UserId, c: Counter, request: SaleRequest, order: seq<ItemRequest>)
    requires SellInTurn(b.stock.inventory, At(c), order).None? && multiset(order) == multiset(request.items)
    ensures CheckSale(b, user, c, request).Failure?
  {
    if CheckSale(b, user, c, request).Success? {
      SaleIsInTurn(b, user, c, request, order);
    }
  }
}
