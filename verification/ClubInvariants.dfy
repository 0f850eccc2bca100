/** What every run of transactions keeps, over cash and stock together. */
module ClubInvariants {
  import opened Prelude
  import opened CashLedger
  import opened Quantity
  import opened StockLedger
  import opened Club
  import Cash = CashInvariants
  import Stock = StockInvariants

  // ----- what sale lines and returns say about one sale -----

  function ReturnedFor(k: nat, p: ProductId): StockMovement -> int {
    (e: StockMovement) => if e.product == p && e.source == ByCancellation(k) then Effect(e.quantity) else 0
  }

  function RequestedBy(k: nat, p: ProductId): SaleItem -> int {
    (i: SaleItem) => if i.sale == k && i.line.product == p then Effect(i.line.quantity) else 0
  }

  function TakenBy(k: nat, p: ProductId): SaleItem -> int {
    (i: SaleItem) => if i.sale == k && i.line.product == p then Effect(-i.line.StockQuantity()) else 0
  }

  predicate IsCancelled(cash: CashBooks, k: nat) {
    k < |cash.sales| && cash.sales[k].status == Cancelled
  }

  /** Stock comes back for a sale exactly once it is cancelled, and then for each of its lines. */
  predicate ReturnTraced(cash: CashBooks, stock: StockBooks, k: nat, p: ProductId) {
    SumBy(stock.log, ReturnedFor(k, p)) == if IsCancelled(cash, k) then SumBy(stock.items, RequestedBy(k, p)) else 0
  }

  /** A sale has one line for a product. */
  ghost predicate OneLinePerProduct(items: seq<SaleItem>) {
    forall i, j | 0 <= i < j < |items| && items[i].sale == items[j].sale ::
      items[i].line.product != items[j].line.product
  }

  ghost predicate Valid(b: Books) {
    && Cash.Valid(b.cash)
    && Stock.Valid(b.stock)
    && (forall i <- b.stock.items :: i.sale < |b.cash.sales|)
    && OneLinePerProduct(b.stock.items)
    && (forall k: nat, p: ProductId :: ReturnTraced(b.cash, b.stock, k, p))
  }

  // ----- selling -----

  lemma AcceptedLines(stock: StockBooks, c: Counter, items: seq<ItemRequest>)
    requires Stock.Valid(stock) && ResolveItems(stock.inventory, At(c), items).Success?
    ensures
      var lines := ResolveItems(stock.inventory, At(c), items).value;
      && (DistinctProducts(items) ==> Stock.DistinctLines(lines)) && Stock.ResolvedAgainst(stock.inventory, lines)
      && 0 <= SumBy(lines, LineTotal)
      && (!c.settings.allowUnderWeight ==> forall line <- lines :: 0 <= line.Overweight() == line.WasteQuantity())
  {
    var lines := ResolveItems(stock.inventory, At(c), items).value;
    forall p <- stock.inventory
      ensures WholeGrams(stock.inventory[p].current)
    {
      assert Stock.RowExact(stock, p);
    }
    Stock.ResolveItemsExact(stock.inventory, c, items);
    forall i | 0 <= i < |lines|
      ensures 0 <= LineTotal(lines[i])
    {
      assert lines[i] in lines;
    }
    SumByNonnegative(lines, LineTotal);
  }

  lemma AcceptedSale(b: Books, user: UserId, c: Counter, request: SaleRequest)
    requires Valid(b) && CheckSale(b, user, c, request).Success?
    ensures
      var (session, lines, st) := CheckSale(b, user, c, request).value;
      && session < |b.cash.sessions| && IsOpenFor(b.cash.sessions[session], user)
      && Stock.DistinctLines(lines) && Stock.ResolvedAgainst(b.stock.inventory, lines)
      && Cash.SaleSettled(Sale(session, st.total, st.amountPaid, st.amountPending, st.status, st.saleType, Completed))
      && (!c.settings.allowUnderWeight ==> forall line <- lines :: 0 <= line.Overweight() == line.WasteQuantity())
  {
    CheckedParts(b, user, c, request);
    AcceptedLines(b.stock, c, request.items);
    var (session, lines, st) := CheckSale(b, user, c, request).value;
    AcceptedSettlement(SumBy(lines, LineTotal), request.tender, session);
  }

  lemma AcceptedSettlement(subtotal: nat, t: Tender, session: nat)
    requires ValidTender(t) && Settle(subtotal, t).Success?
    ensures
      var st := Settle(subtotal, t).value;
      Cash.SaleSettled(Sale(session, st.total, st.amountPaid, st.amountPending, st.status, st.saleType, Completed))
  {
    Cash.SettleAddsUp(subtotal, t);
  }

  lemma CheckedParts(b: Books, user: UserId, c: Counter, request: SaleRequest)
    requires CheckSale(b, user, c, request).Success?
    ensures
      var (session, lines, st) := CheckSale(b, user, c, request).value;
      && OpenSessionOf(b.cash.sessions, user) == Some(session)
      && DistinctProducts(request.items) && ValidTender(request.tender)
      && ResolveItems(b.stock.inventory, At(c), request.items) == Success(lines)
      && Settle(SumBy(lines, LineTotal), request.tender) == Success(st)
  {
  }

  lemma {:induction false} SaleItemsAreOf(lines: seq<Line>, k: nat)
    ensures |ItemsOfSale(lines, k)| == |lines|
    ensures forall i | 0 <= i < |lines| :: ItemsOfSale(lines, k)[i] == SaleItem(k, lines[i])
    ensures forall i <- ItemsOfSale(lines, k) :: i.sale == k
  {
    if lines != [] { SaleItemsAreOf(lines[..|lines| - 1], k); }
  }

  lemma NewLinesAreOnePerProduct(items: seq<SaleItem>, lines: seq<Line>, k: nat)
    requires OneLinePerProduct(items) && Stock.DistinctLines(lines) && forall i <- items :: i.sale < k
    ensures OneLinePerProduct(items + ItemsOfSale(lines, k))
  {
    SaleItemsAreOf(lines, k);
    var all, n := items + ItemsOfSale(lines, k), |items|;
    assert forall i | 0 <= i < n :: items[i] in items && all[i].sale < k;
    forall i, j | 0 <= i < j < |all| && all[i].sale == all[j].sale
      ensures all[i].line.product != all[j].line.product
    {
      if i >= n { assert lines[i - n].product != lines[j - n].product; }
    }
  }

  lemma PostedKeeps(b: Books, session: nat, lines: seq<Line>, st: Settlement, autoWaste: bool)
    requires Valid(b) && Stock.DistinctLines(lines) && Stock.ResolvedAgainst(b.stock.inventory, lines)
    requires Cash.SaleSettled(Sale(session, st.total, st.amountPaid, st.amountPending, st.status, st.saleType,
                                   Completed))
    ensures Valid(Posted(b, session, lines, st, autoWaste))
  {
    var b', sale := Posted(b, session, lines, st, autoWaste), |b.cash.sales|;
    Cash.PostSaleKeeps(b.cash, session, st);
    Stock.PostLinesKeeps(b.stock, sale, lines, autoWaste);
    SaleItemsAreOf(lines, sale);
    NewLinesAreOnePerProduct(b.stock.items, lines, sale);
    forall k: nat, p: ProductId
      ensures ReturnTraced(b'.cash, b'.stock, k, p)
    {
      assert ReturnTraced(b.cash, b.stock, k, p);
      Stock.SaleEntriesZero(lines, autoWaste, ReturnedFor(k, p));
      SumByConcat(b.stock.log, SaleEntries(lines, autoWaste), ReturnedFor(k, p));
      if k < sale {
        SumByZero(ItemsOfSale(lines, sale), RequestedBy(k, p));
        SumByConcat(b.stock.items, ItemsOfSale(lines, sale), RequestedBy(k, p));
      }
    }
  }

  // ----- cancelling -----

  /** Cancelling sale `k` adds the requested quantities of its lines to the returns for it, and to no other sale's. */
  lemma ReturnSaleTraced(b: StockBooks, k: nat, j: nat, p: ProductId)
    ensures
      SumBy(ReturnSale(b, k, |b.items|).log, ReturnedFor(j, p))
      == SumBy(b.log, ReturnedFor(j, p)) + if j == k then SumBy(b.items, RequestedBy(k, p)) else 0
  {
    assert b.items[..|b.items|] == b.items;
    if j == k {
      Stock.ReturnSaleSum(b, k, |b.items|, ReturnedFor(k, p), RequestedBy(k, p));
    } else {
      var none := (i: SaleItem) => 0;
      Stock.ReturnSaleSum(b, k, |b.items|, ReturnedFor(j, p), none);
      SumByZero(b.items, none);
    }
  }

  lemma CancelSaleKeeps(b: Books, sale: nat)
    requires Valid(b) && CancelSale(b, sale).Success?
    ensures Valid(CancelSale(b, sale).value)
  {
    var b', n := CancelSale(b, sale).value, |b.stock.items|;
    Cash.ReverseSaleKeeps(b.cash, sale);
    Stock.ReturnSaleKeeps(b.stock, sale, n);
    forall k: nat, p: ProductId
      ensures ReturnTraced(b'.cash, b'.stock, k, p)
    {
      assert ReturnTraced(b.cash, b.stock, k, p);
      ReturnSaleTraced(b.stock, sale, k, p);
    }
  }

  // ----- every step, every run -----

  lemma CashStepKeeps(b: Books, cash: CashBooks)
    requires Valid(b) && Cash.Valid(cash) && cash.sales == b.cash.sales
    ensures Valid(b.(cash := cash))
  {
    forall k: nat, p: ProductId
      ensures ReturnTraced(cash, b.stock, k, p)
    {
      assert ReturnTraced(b.cash, b.stock, k, p);
    }
  }

  lemma StockStepKeeps(b: Books, stock: StockBooks, e: StockMovement)
    requires Valid(b) && Stock.Valid(stock) && stock.items == b.stock.items
    requires stock.log == b.stock.log + [e] && !e.source.ByCancellation?
    ensures Valid(b.(stock := stock))
  {
    forall k: nat, p: ProductId
      ensures ReturnTraced(b.cash, stock, k, p)
    {
      assert ReturnTraced(b.cash, b.stock, k, p);
      SumByAppend(b.stock.log, e, ReturnedFor(k, p));
    }
  }

  lemma StepKeepsValid(b: Books, step: Step)
    requires Valid(b)
    ensures Valid(Apply(b, step))
  {
    if Perform(b, step).Success? {
      var b' := Perform(b, step).value;
      match step
      case Selling(user, c, request) => SellingKeeps(b, user, c, request);
      case CancellingSale(k) => CancelSaleKeeps(b, k);
      case AddingStock(_, _, _) => StockOnlyKeeps(b, step);
      case AdjustingStock(_, _, _) => StockOnlyKeeps(b, step);
      case WastingStock(_, _, _) => StockOnlyKeeps(b, step);
      case _ =>
        CashOnlyKeeps(b, step);
        CashStepKeeps(b, b'.cash);
    }
  }

  lemma SellingKeeps(b: Books, user: UserId, c: Counter, request: SaleRequest)
    requires Valid(b) && CreateSale(b, user, c, request).Success?
    ensures Valid(CreateSale(b, user, c, request).value)
  {
    AcceptedSale(b, user, c, request);
    var (session, lines, st) := CheckSale(b, user, c, request).value;
    PostedKeeps(b, session, lines, st, c.settings.autoRegisterWaste);
  }

  predicate IsStockOnly(step: Step) {
    step.AddingStock? || step.AdjustingStock? || step.WastingStock?
  }

  lemma StockOnlyKeeps(b: Books, step: Step)
    requires Valid(b) && IsStockOnly(step) && Perform(b, step).Success?
    ensures Valid(Perform(b, step).value)
  {
    var stock := Perform(b, step).value.stock;
    match step {
      case AddingStock(catalog, p, input) => Stock.AddStockKeeps(b.stock, catalog, p, input);
      case AdjustingStock(catalog, p, input) => Stock.AdjustStockKeeps(b.stock, catalog, p, input);
      case WastingStock(catalog, p, input) => Stock.WasteStockKeeps(b.stock, catalog, p, input);
      case _ =>
    }
    StockStepKeeps(b, stock, stock.log[|b.stock.log|]);
  }

  lemma CashOnlyKeeps(b: Books, step: Step)
    requires Valid(b) && !IsStockOnly(step) && !step.Selling? && !step.CancellingSale? && Perform(b, step).Success?
    ensures
      var b' := Perform(b, step).value;
      Cash.Valid(b'.cash) && b'.cash.sales == b.cash.sales && b'.stock == b.stock
  {
    match step
    case OpeningSession(user, openingCash) => Cash.OpenSessionKeeps(b.cash, user, openingCash);
    case ClosingSession(user, s, closingCash, settings, why) =>
      Cash.CloseSessionKeeps(b.cash, user, s, closingCash, settings, why);
    case CreatingReceivable(known, amount) => Cash.CreateReceivableKeeps(b.cash, known, amount);
    case PayingReceivable(user, r, amount) => Cash.PayReceivableKeeps(b.cash, user, r, amount);
    case CancellingReceivable(r) => Cash.CancelReceivableKeeps(b.cash, r);
    case PayingThirdParty(user, usable, amount) => Cash.PayThirdPartyKeeps(b.cash, user, usable, amount);
    case CancellingPayout(i) => Cash.CancelPayoutKeeps(b.cash, i);
    case MovingCash(user, permissions, kind, amount) => Cash.AddMovementKeeps(b.cash, user, permissions, kind, amount);
    case _ =>
  }

  lemma {:induction false} RunKeepsValid(b: Books, steps: seq<Step>)
    requires Valid(b)
    ensures Valid(Run(b, steps))
  {
    if steps != [] {
      RunKeepsValid(b, steps[..|steps| - 1]);
      StepKeepsValid(Run(b, steps[..|steps| - 1]), steps[|steps| - 1]);
    }
  }

  lemma EmptyIsValid()
    ensures Valid(EMPTY_BOOKS)
  {
    Cash.EmptyIsValid();
    Stock.EmptyIsValid();
  }
}
