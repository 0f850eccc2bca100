/**
 What every step does to the tills and the stock, told from its request, and what whole runs of steps have done to a
 till by the time it is closed.
 */
module ClubEffects {
  import opened Prelude
  import opened CashLedger
  import opened Quantity
  import opened StockLedger
  import opened Club
  import opened ClubInvariants
  import opened ClubTheorems
  import opened CashEffects
  import opened SaleEffects
  import opened StockChanges
  import opened StockEffects
  import opened BatchSale
  import Cash = CashInvariants
  import Stock = StockInvariants

  // ----- cancelling a sale -----

  /** Of the receivables, those of sale `k` are cancelled and the others as they were. */
  predicate OnlyCancels(rs: seq<Receivable>, rs': seq<Receivable>, k: nat) {
    && |rs'| == |rs|
    && forall r | 0 <= r < |rs| ::
         rs'[r] == if rs[r].sale == Some(k) then rs[r].(status := ReceivableCancelled) else rs[r]
  }

  lemma CancelsItsReceivable(b: CashBooks, k: nat)
    requires Cash.Valid(b)
    ensures OnlyCancels(b.receivables, CancelReceivableOf(b.receivables, k), k)
  {
    var found := ReceivableOf(b.receivables, k);
    forall r | 0 <= r < |b.receivables| && b.receivables[r].sale == Some(k)
      ensures found == Some(r)
    {
    }
  }

  lemma ReversingMoves(b: CashBooks, k: nat)
    requires Cash.Valid(b) && CancelRefusal(b, k).None?
    ensures SessionMoves(b, ReverseSale(b, k), b.sales[k].session, -b.sales[k].amountPaid)
  {
    forall s: nat
      ensures SessionCash(ReverseSale(b, k), s)
           == SessionCash(b, s) + if s == b.sales[k].session then -b.sales[k].amountPaid else 0
    {
      ReversingPaysBack(b, k, s);
    }
  }

  /** A cancellation gives back what was paid, in the sale's own session, and what was asked for to the stock. */
  lemma CancellingMeans(b: Books, k: nat)
    requires Valid(b)
    ensures
      match Perform(b, CancellingSale(k))
      case Failure(e) =>
        || (e == SaleNotFound && |b.cash.sales| <= k)
        || (e == SaleAlreadyCancelled && k < |b.cash.sales| && b.cash.sales[k].status == Cancelled)
        || (e == SaleAlreadyRefunded && k < |b.cash.sales| && b.cash.sales[k].status == Refunded)
      case Success(after) =>
        && k < |b.cash.sales| && b.cash.sales[k].status !in {Cancelled, Refunded}
        && SessionMoves(b.cash, after.cash, b.cash.sales[k].session, -b.cash.sales[k].amountPaid)
        && OnlyCancels(b.cash.receivables, after.cash.receivables, k)
        && after.cash == b.cash.(sales := b.cash.sales[k := b.cash.sales[k].(status := Cancelled)],
                                 receivables := after.cash.receivables, movements := after.cash.movements)
        && after.stock.items == b.stock.items
  {
    if CancelRefusal(b.cash, k).None? {
      CancelsItsReceivable(b.cash, k);
      ReversingMoves(b.cash, k);
      Stock.ReturnSaleKeeps(b.stock, k, |b.stock.items|);
    }
  }

  /** A return in the log, of what a line asked for. */
  predicate LogsTheReturn(e: StockMovement, k: nat, line: Line) {
    e.product == line.product && e.kind == Return && e.source == ByCancellation(k) && e.quantity == line.quantity
  }

  function OfSale(k: nat): SaleItem -> int {
    (i: SaleItem) => if i.sale == k then 1 else 0
  }

  function ReturnsOf(items: seq<SaleItem>, k: nat): seq<StockMovement> {
    if items == [] then []
    else
      var rest, last := ReturnsOf(items[..|items| - 1], k), items[|items| - 1];
      if last.sale == k then rest + [ReturnEntry(k, last.line)] else rest
  }

  lemma {:induction false} ReturnsAppended(b: StockBooks, k: nat, n: nat)
    requires n <= |b.items|
    ensures ReturnSale(b, k, n).log == b.log + ReturnsOf(b.items[..n], k) && ReturnSale(b, k, n).items == b.items
    decreases n
  {
    if n > 0 {
      ReturnsAppended(b, k, n - 1);
      assert b.items[..n][..n - 1] == b.items[..n - 1];
    }
  }

  lemma {:induction false} ReturnsTell(items: seq<SaleItem>, k: nat)
    ensures |ReturnsOf(items, k)| == SumBy(items, OfSale(k))
    ensures forall e <- ReturnsOf(items, k) :: exists i <- items :: i.sale == k && LogsTheReturn(e, k, i.line)
    ensures forall i <- items | i.sale == k :: exists e <- ReturnsOf(items, k) :: LogsTheReturn(e, k, i.line)
  {
    if items != [] {
      var init, last := items[..|items| - 1], items[|items| - 1];
      ReturnsTell(init, k);
      assert items == init + [last];
      if last.sale == k { assert LogsTheReturn(ReturnEntry(k, last.line), k, last.line); }
    }
  }

  /** A cancellation logs one return for each line of the sale, of what the line asked for, and nothing else. */
  lemma CancellingLogs(b: Books, k: nat)
    requires CancelSale(b, k).Success?
    ensures
      var before, after := b.stock.log, Apply(b, CancellingSale(k)).stock.log;
      && before <= after && |after| == |before| + SumBy(b.stock.items, OfSale(k))
      && (forall e <- after[|before|..] :: exists i <- b.stock.items :: i.sale == k && LogsTheReturn(e, k, i.line))
      && (forall i <- b.stock.items | i.sale == k :: exists e <- after[|before|..] :: LogsTheReturn(e, k, i.line))
  {
    ReturnsAppended(b.stock, k, |b.stock.items|);
    assert b.stock.items[..|b.stock.items|] == b.stock.items;
    ReturnsTell(b.stock.items, k);
    assert Apply(b, CancellingSale(k)).stock.log[|b.stock.log|..] == ReturnsOf(b.stock.items, k);
  }

  // ----- what a sale does to the stock -----

  /** The row of the item's product goes down, and its outgoing counter up, by what its line takes, to the gram. */
  predicate RowTakes(b: Books, after: Books, i: SaleItem) {
    var was, row, q := RowOf(b.stock.inventory, i.line.product), RowOf(after.stock.inventory, i.line.product),
      i.line.StockQuantity();
    && IsGramsAfter(row.current, was.current, -q) && IsGramsAfter(row.totalOut, was.totalOut, q)
    && row.totalIn == was.totalIn && row.lost == was.lost
  }

  /** The log says what the line asked for, from the stock there was. */
  predicate LogsTheSale(e: StockMovement, line: Line) {
    && e.product == line.product && e.kind == SaleOut && e.source == BySale
    && e.quantity == -line.quantity && e.previous == line.previous && e.next == line.previous - line.quantity
  }

  /** And, where waste is registered, what it weighed above that. */
  predicate LogsTheSurplus(e: StockMovement, line: Line) {
    && e.product == line.product && e.kind == Waste && e.source == ByScale && 0 < line.Overweight()
    && e.quantity == -line.Overweight() && e.previous == line.previous - line.quantity
    && e.next == line.previous - line.StockQuantity()
  }

  predicate LogsLine(entries: seq<StockMovement>, line: Line, autoWaste: bool) {
    && (exists e <- entries :: LogsTheSale(e, line))
    && (autoWaste && 0 < line.Overweight() ==> exists e <- entries :: LogsTheSurplus(e, line))
  }

  predicate IsLogged(e: StockMovement, lines: seq<Line>, autoWaste: bool) {
    exists line <- lines :: LogsTheSale(e, line) || (autoWaste && LogsTheSurplus(e, line))
  }

  /** What a line's entries are. */
  lemma LineIsLogged(line: Line, autoWaste: bool)
    requires Stock.LineExact(line)
    ensures LogsLine(LineEntries(line, autoWaste), line, autoWaste)
    ensures forall e <- LineEntries(line, autoWaste) ::
              LogsTheSale(e, line) || (autoWaste && LogsTheSurplus(e, line))
    ensures |LineEntries(line, autoWaste)| == if autoWaste && 0 < line.Overweight() then 2 else 1
  {
    assert SaleEntry(line) in LineEntries(line, autoWaste);
    if autoWaste && 0 < line.Overweight() {
      assert ScaleWasteEntry(line) in LineEntries(line, autoWaste);
    }
  }

  function LoggedSurplus(autoWaste: bool): Line -> int {
    (line: Line) => if autoWaste && 0 < line.Overweight() then 1 else 0
  }

  lemma {:induction false} SaleIsLogged(lines: seq<Line>, autoWaste: bool)
    requires forall line <- lines :: Stock.LineExact(line)
    ensures forall line <- lines :: LogsLine(SaleEntries(lines, autoWaste), line, autoWaste)
    ensures forall e <- SaleEntries(lines, autoWaste) :: IsLogged(e, lines, autoWaste)
    ensures |SaleEntries(lines, autoWaste)| == |lines| + SumBy(lines, LoggedSurplus(autoWaste))
  {
    if lines != [] {
      var init, last := lines[..|lines| - 1], lines[|lines| - 1];
      SaleIsLogged(init, autoWaste);
      LineIsLogged(last, autoWaste);
      assert lines == init + [last];
      var before, entries := SaleEntries(init, autoWaste), LineEntries(last, autoWaste);
      forall line <- lines
        ensures LogsLine(before + entries, line, autoWaste)
      {
        if line in init {
          LogsMore(before, entries, line, autoWaste);
        } else {
          LogsMore(entries, before, line, autoWaste);
        }
      }
    }
  }

  lemma LogsMore(entries: seq<StockMovement>, more: seq<StockMovement>, line: Line, autoWaste: bool)
    requires LogsLine(entries, line, autoWaste)
    ensures LogsLine(entries + more, line, autoWaste) && LogsLine(more + entries, line, autoWaste)
  {
    assert forall e <- entries :: e in entries + more && e in more + entries;
  }

  lemma EffectIsNearest(q: int)
    ensures WholeGrams(Effect(q)) && Effect(q) - 500 <= q < Effect(q) + 500
  {
    assert Effect(q) == q + 500 - (q + 500) % 1000;
    Remainder(Effect(q), (q + 500) / 1000, 0);
  }

  lemma WholeSum(a: int, b: int)
    requires WholeGrams(a) && WholeGrams(b)
    ensures WholeGrams(a + b)
  {
    Remainder(a + b, a / 1000 + b / 1000, 0);
  }

  lemma TakenRow(b: Books, after: Books, line: Line, k: nat)
    requires Stock.RowSound(RowOf(b.stock.inventory, line.product)) && 0 <= line.StockQuantity()
    requires RowOf(after.stock.inventory, line.product)
             == Stock.RowTaken(RowOf(b.stock.inventory, line.product), Some(line))
    ensures RowTakes(b, after, SaleItem(k, line))
  {
    var was, q := RowOf(b.stock.inventory, line.product), line.StockQuantity();
    EffectIsNearest(-q);
    EffectIsNearest(q);
    WholeGramsExactly(q);
    WholeSum(was.current, Effect(-q));
    WholeSum(was.totalOut, Effect(q));
  }

  lemma SoldLineTakes(b: Books, user: UserId, c: Counter, request: SaleRequest, n: nat)
    requires Valid(b) && CheckSale(b, user, c, request).Success? && n < |CheckSale(b, user, c, request).value.1|
    ensures
      var line := CheckSale(b, user, c, request).value.1[n];
      RowTakes(b, Apply(b, Selling(user, c, request)), SaleItem(|b.cash.sales|, line))
  {
    var lines := CheckSale(b, user, c, request).value.1;
    AcceptedSale(b, user, c, request);
    LineForAt(lines, n);
    SellingTakes(b, user, c, request, lines[n].product);
    assert lines[n] in lines && Stock.LineExact(lines[n]) && Stock.RowExact(b.stock, lines[n].product);
    TakenRow(b, Apply(b, Selling(user, c, request)), lines[n], |b.cash.sales|);
  }

  lemma UnsoldRow(b: Books, user: UserId, c: Counter, request: SaleRequest, p: ProductId)
    requires Valid(b) && CheckSale(b, user, c, request).Success?
    requires forall line <- CheckSale(b, user, c, request).value.1 :: line.product != p
    ensures RowOf(Apply(b, Selling(user, c, request)).stock.inventory, p) == RowOf(b.stock.inventory, p)
  {
    SellingTakes(b, user, c, request, p);
  }

  lemma NewItemsAre(b: Books, user: UserId, c: Counter, request: SaleRequest)
    requires Valid(b) && CheckSale(b, user, c, request).Success?
    ensures
      var after, lines := Apply(b, Selling(user, c, request)), CheckSale(b, user, c, request).value.1;
      && |b.stock.items| <= |after.stock.items| && |NewItems(b, after)| == |lines| == |request.items|
      && (forall n | 0 <= n < |lines| :: NewItems(b, after)[n] == SaleItem(|b.cash.sales|, lines[n]))
      && (forall n | 0 <= n < |lines| :: lines[n].product == request.items[n].product)
      && after.stock.log == b.stock.log + SaleEntries(lines, c.settings.autoRegisterWaste)
  {
    var after, lines := Apply(b, Selling(user, c, request)), CheckSale(b, user, c, request).value.1;
    SellingIsPosting(b, user, c, request);
    SaleItemsAreOf(lines, |b.cash.sales|);
    assert NewItems(b, after) == ItemsOfSale(lines, |b.cash.sales|);
    CheckedParts(b, user, c, request);
    CounterIsProper(c);
    ResolvedProducts(b.stock.inventory, At(c), request.items);
  }

  /** A sale moves the rows of the products that it sells, each by its line, and no other row. */
  lemma SaleTakesStock(b: Books, user: UserId, c: Counter, request: SaleRequest)
    requires Valid(b) && CheckSale(b, user, c, request).Success?
    ensures
      var after := Apply(b, Selling(user, c, request));
      && |NewItems(b, after)| == |request.items|
      && (forall n | 0 <= n < |request.items| ::
            NewItems(b, after)[n].line.product == request.items[n].product && RowTakes(b, after, NewItems(b, after)[n]))
      && forall p: ProductId | (forall item <- request.items :: item.product != p) ::
           RowOf(after.stock.inventory, p) == RowOf(b.stock.inventory, p)
  {
    var after, lines := Apply(b, Selling(user, c, request)), CheckSale(b, user, c, request).value.1;
    NewItemsAre(b, user, c, request);
    forall n | 0 <= n < |lines|
      ensures RowTakes(b, after, NewItems(b, after)[n])
    {
      SoldLineTakes(b, user, c, request, n);
    }
    forall p: ProductId | (forall item <- request.items :: item.product != p)
      ensures RowOf(after.stock.inventory, p) == RowOf(b.stock.inventory, p)
    {
      forall line <- lines
        ensures line.product != p
      {
        var n :| 0 <= n < |lines| && lines[n] == line;
        assert request.items[n] in request.items;
      }
      UnsoldRow(b, user, c, request, p);
    }
  }

  /** A sale logs each line, and each surplus where waste is registered, and nothing else. */
  lemma SaleLogs(b: Books, user: UserId, c: Counter, request: SaleRequest)
    requires Valid(b) && CheckSale(b, user, c, request).Success?
    ensures
      var after, auto := Apply(b, Selling(user, c, request)), c.settings.autoRegisterWaste;
      var lines := seq(|NewItems(b, after)|, n requires 0 <= n < |NewItems(b, after)| => NewItems(b, after)[n].line);
      && b.stock.log <= after.stock.log
      && var entries := after.stock.log[|b.stock.log|..];
         && (forall line <- lines :: LogsLine(entries, line, auto)) && (forall e <- entries :: IsLogged(e, lines, auto))
         && |entries| == |lines| + SumBy(lines, LoggedSurplus(auto))
  {
    var after, sold := Apply(b, Selling(user, c, request)), CheckSale(b, user, c, request).value.1;
    NewItemsAre(b, user, c, request);
    AcceptedSale(b, user, c, request);
    SaleIsLogged(sold, c.settings.autoRegisterWaste);
    assert seq(|NewItems(b, after)|, n requires 0 <= n < |NewItems(b, after)| => NewItems(b, after)[n].line) == sold;
    assert after.stock.log[|b.stock.log|..] == SaleEntries(sold, c.settings.autoRegisterWaste);
  }

  // ----- the cash of one till -----

  /** What an accepted step moves in the cash of session `s`. */
  function Moves(b: Books, step: Step, s: nat): int {
    match step
    case Selling(user, c, request) => if TillOf(b.cash, s, user) then PaidAtTheTill(b, step) else 0
    case CancellingSale(k) =>
      if k < |b.cash.sales| && b.cash.sales[k].session == s then -b.cash.sales[k].amountPaid else 0
    case PayingReceivable(user, _, amount) => if TillOf(b.cash, s, user) then amount else 0
    case PayingThirdParty(user, _, amount) => if TillOf(b.cash, s, user) then -amount else 0
    case CancellingPayout(i) =>
      if i < |b.cash.payouts| && b.cash.payouts[i].session == s then b.cash.payouts[i].amount else 0
    case MovingCash(user, _, kind, amount) =>
      if !TillOf(b.cash, s, user) then 0 else if kind in {CashIn, CorrectionIn} then amount else -amount
    case _ => 0
  }

  /** What was handed over for a sale, up to what its lines cost less the discount. */
  function PaidAtTheTill(b: Books, step: Step): int
    requires step.Selling?
  {
    var after, t := Apply(b, step), step.request.tender;
    if |after.stock.items| < |b.stock.items| then 0
    else
      var total := SumBy(NewItems(b, after), TotalOf) - DiscountOf(t);
      Min(HandedOver(t, total), total)
  }

  lemma SaleMovesTill(b: Books, after: Books, user: UserId, c: Counter, request: SaleRequest, change: int, s: nat)
    requires SaleMade(b, after, user, c, request, change)
    ensures
      var total := SumBy(NewItems(b, after), TotalOf) - DiscountOf(request.tender);
      && |b.stock.items| <= |after.stock.items|
      && SessionCash(after.cash, s)
         == SessionCash(b.cash, s)
            + if TillOf(b.cash, s, user) then Min(HandedOver(request.tender, total), total) else 0
  {
  }

  lemma SellingMoves(b: Books, step: Step, s: nat)
    requires Valid(b) && step.Selling? && Perform(b, step).Success?
    ensures SessionCash(Apply(b, step).cash, s) == SessionCash(b.cash, s) + Moves(b, step, s)
  {
    var user, c, request := step.user, step.counter, step.request;
    SoldLineIs(b, step, "");
    SaleMeans(b, user, c, request);
    SaleMovesTill(b, Apply(b, step), user, c, request, CheckSale(b, user, c, request).value.2.changeDue, s);
  }

  predicate MovesTills(step: Step) {
    step.PayingReceivable? || step.PayingThirdParty? || step.CancellingPayout? || step.MovingCash?
  }

  lemma PayingMoves(b: Books, user: UserId, r: nat, amount: int, s: nat)
    requires Cash.Valid(b.cash)
    ensures
      var step := PayingReceivable(user, r, amount);
      Perform(b, step).Success? ==>
        SessionCash(Apply(b, step).cash, s) == SessionCash(b.cash, s) + Moves(b, step, s)
  {
    PayingMeans(b.cash, user, r, amount);
  }

  lemma PayingOutMoves(b: Books, user: UserId, usable: bool, amount: int, s: nat)
    requires Cash.Valid(b.cash)
    ensures
      var step := PayingThirdParty(user, usable, amount);
      Perform(b, step).Success? ==>
        SessionCash(Apply(b, step).cash, s) == SessionCash(b.cash, s) + Moves(b, step, s)
  {
    PayingOutMeans(b.cash, user, usable, amount);
  }

  lemma PayoutBackMoves(b: Books, i: nat, s: nat)
    ensures
      var step := CancellingPayout(i);
      Perform(b, step).Success? ==>
        SessionCash(Apply(b, step).cash, s) == SessionCash(b.cash, s) + Moves(b, step, s)
  {
    CancellingPayoutMeans(b.cash, i);
  }

  lemma ByHandMoves(b: Books, user: UserId, permissions: set<string>, kind: CashType, amount: int, s: nat)
    requires Cash.Valid(b.cash)
    ensures
      var step := MovingCash(user, permissions, kind, amount);
      Perform(b, step).Success? ==>
        SessionCash(Apply(b, step).cash, s) == SessionCash(b.cash, s) + Moves(b, step, s)
  {
    MovingMeans(b.cash, user, permissions, kind, amount);
  }

  lemma TillStepMoves(b: Books, step: Step, s: nat)
    requires Cash.Valid(b.cash) && MovesTills(step) && Perform(b, step).Success?
    ensures SessionCash(Apply(b, step).cash, s) == SessionCash(b.cash, s) + Moves(b, step, s)
  {
    match step
    case PayingReceivable(user, r, amount) => PayingMoves(b, user, r, amount, s);
    case PayingThirdParty(user, usable, amount) => PayingOutMoves(b, user, usable, amount, s);
    case CancellingPayout(i) => PayoutBackMoves(b, i, s);
    case MovingCash(user, permissions, kind, amount) => ByHandMoves(b, user, permissions, kind, amount, s);
  }

  lemma OtherStepsMoveNothing(b: Books, step: Step, s: nat)
    requires !step.Selling? && !step.CancellingSale? && !MovesTills(step)
    ensures SessionCash(Apply(b, step).cash, s) == SessionCash(b.cash, s)
  {
  }

  /** Every step changes the cash of every session by what its request says. */
  lemma StepMoves(b: Books, step: Step, s: nat)
    requires Valid(b)
    ensures SessionCash(Apply(b, step).cash, s)
         == SessionCash(b.cash, s) + if Perform(b, step).Success? then Moves(b, step, s) else 0
  {
    if Perform(b, step).Success? {
      if step.Selling? {
        SellingMoves(b, step, s);
      } else if step.CancellingSale? {
        CancellingMeans(b, step.sale);
      } else if MovesTills(step) {
        TillStepMoves(b, step, s);
      } else {
        OtherStepsMoveNothing(b, step, s);
      }
    }
  }

  /** What the accepted steps of a run moved in session `s`, one after the other. */
  function Moved(steps: seq<Step>, s: nat): int {
    if steps == [] then 0
    else
      var b, step := Reached(steps[..|steps| - 1]), steps[|steps| - 1];
      Moved(steps[..|steps| - 1], s) + if Perform(b, step).Success? then Moves(b, step, s) else 0
  }

  /** In every reachable state the cash of a session is what the requests of the run asked for. */
  lemma {:induction false} CashIsAsAsked(steps: seq<Step>, s: nat)
    ensures SessionCash(Reached(steps).cash, s) == Moved(steps, s)
  {
    if steps != [] {
      var init := steps[..|steps| - 1];
      CashIsAsAsked(init, s);
      ReachedIsValid(init);
      StepMoves(Reached(init), steps[|steps| - 1], s);
    }
  }

  // ----- what is counted at closing -----

  /** Over any steps a session keeps its user and its opening cash, and once it is closed everything. */
  predicate SessionKept(was: Session, now: Session) {
    now.openedBy == was.openedBy && now.openingCash == was.openingCash && (was.status == Closed ==> now == was)
  }

  ghost predicate SessionsKept(b: CashBooks, now: CashBooks) {
    && |b.sessions| <= |now.sessions|
    && forall s | 0 <= s < |b.sessions| :: SessionKept(b.sessions[s], now.sessions[s])
  }

  lemma StepKeepsSessions(b: Books, step: Step)
    ensures SessionsKept(b.cash, Apply(b, step).cash)
  {
  }

  lemma {:induction false} RunKeepsSessions(b: Books, steps: seq<Step>)
    ensures SessionsKept(b.cash, Run(b, steps).cash)
  {
    if steps != [] {
      var init := steps[..|steps| - 1];
      RunKeepsSessions(b, init);
      StepKeepsSessions(Run(b, init), steps[|steps| - 1]);
      var mid, end := Run(b, init).cash, Run(b, steps).cash;
      assert forall s | 0 <= s < |b.cash.sessions| ::
          SessionKept(b.cash.sessions[s], mid.sessions[s]) && SessionKept(mid.sessions[s], end.sessions[s]);
    }
  }

  lemma OpenedWith(before: seq<Step>, opening: Step, between: seq<Step>)
    requires opening.OpeningSession? && Perform(Reached(before), opening).Success?
    ensures
      var s, now := |Reached(before).cash.sessions|, Reached(before + [opening] + between).cash;
      s < |now.sessions| && now.sessions[s].openingCash == opening.openingCash
  {
    ReachedIsValid(before);
    OpeningMeans(Reached(before).cash, opening.user, opening.openingCash);
    AfterSaleIsReached(before, opening, between);
    RunKeepsSessions(Apply(Reached(before), opening), between);
  }

  lemma ClosedByStep(b: Books, closing: Step)
    requires closing.ClosingSession? && Perform(b, closing).Success?
    ensures
      closing.session < |b.cash.sessions|
      && ClosedWith(Apply(b, closing).cash, closing.session, closing.closingCash, ShouldHold(b.cash, closing.session))
  {
    ClosingMeans(b.cash, closing.user, closing.session, closing.closingCash, closing.closeSettings, closing.hasReason);
  }

  lemma StaysClosed(b: Books, later: seq<Step>, s: nat, counted: int, expected: int)
    requires ClosedWith(b.cash, s, counted, expected)
    ensures ClosedWith(Run(b, later).cash, s, counted, expected)
  {
    RunKeepsSessions(b, later);
    assert SessionKept(b.cash.sessions[s], Run(b, later).cash.sessions[s]);
  }

  lemma RecordStands(steps: seq<Step>, closing: Step, later: seq<Step>)
    requires closing.ClosingSession? && Perform(Reached(steps), closing).Success?
    ensures closing.session < |Reached(steps).cash.sessions|
    ensures ClosedWith(Reached(steps + [closing] + later).cash, closing.session, closing.closingCash,
                       ShouldHold(Reached(steps).cash, closing.session))
  {
    ClosedByStep(Reached(steps), closing);
    AfterSaleIsReached(steps, closing, later);
    StaysClosed(Apply(Reached(steps), closing), later, closing.session, closing.closingCash,
                ShouldHold(Reached(steps).cash, closing.session));
  }

  /**
   A till that is opened, used and closed in a run: from then on, whatever happens later, it stands recorded what was
   counted, what should have been there (the opening cash and what the steps of the run moved), and the difference.
   */
  lemma CountedAtClosing(before: seq<Step>, opening: Step, between: seq<Step>, closing: Step, later: seq<Step>)
    requires opening.OpeningSession? && Perform(Reached(before), opening).Success?
    requires closing.ClosingSession? && closing.session == |Reached(before).cash.sessions|
    requires Perform(Reached(before + [opening] + between), closing).Success?
    ensures
      var steps := before + [opening] + between;
      ClosedWith(Reached(steps + [closing] + later).cash, closing.session, closing.closingCash,
                 opening.openingCash + Moved(steps, closing.session))
  {
    var steps := before + [opening] + between;
    OpenedWith(before, opening, between);
    CashIsAsAsked(steps, closing.session);
    RecordStands(steps, closing, later);
  }
}
