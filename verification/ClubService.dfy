/**
 The service methods as they run: each reads and writes the tables step by step. Every method is proved to
 do exactly what the transaction of the same name says, or to fail as it fails and leave the tables alone.
 */
module ClubService {
  import opened Prelude
  import opened CashLedger
  import opened CashSummaries
  import opened Quantity
  import opened StockLedger
  import opened StockInvariants
  import opened BatchSale
  import opened Club
  import Invariants = ClubInvariants

  predicate Outcome(before: Books, after: Books, step: Step, r: Result<(), Error>) {
    match Perform(before, step)
    case Success(b) => r == Success(()) && after == b
    case Failure(e) => r == Failure(e) && after == before
  }

  /** So every method keeps the invariant of cash and stock together. */
  lemma OutcomeKeepsValid(before: Books, after: Books, step: Step, r: Result<(), Error>)
    requires Invariants.Valid(before) && Outcome(before, after, step, r)
    ensures Invariants.Valid(after)
  {
    Invariants.StepKeepsValid(before, step);
  }

  lemma {:induction false} PrefixFailureIsTheSales(inventory: map<ProductId, Inventory>, resolve: Resolver,
                                                   items: seq<ItemRequest>, n: nat)
    requires n <= |items| && ResolveItems(inventory, resolve, items[..n]).Failure?
    ensures ResolveItems(inventory, resolve, items) == ResolveItems(inventory, resolve, items[..n])
    decreases |items|
  {
    if n == |items| {
      assert items[..n] == items;
    } else {
      assert items[..|items| - 1][..n] == items[..n];
      PrefixFailureIsTheSales(inventory, resolve, items[..|items| - 1], n);
    }
  }

  lemma ResolveOneMore(inventory: map<ProductId, Inventory>, resolve: Resolver, items: seq<ItemRequest>, n: nat,
                       lines: seq<Line>)
    requires n < |items| && ResolveItems(inventory, resolve, items[..n]) == Success(lines)
    ensures
      ResolveItems(inventory, resolve, items[..n + 1])
      == match resolve(items[n], Lookup(inventory, items[n].product))
         case Failure(e) => Failure(e)
         case Success(line) => Success(lines + [line])
  {
    assert items[..n + 1][..n] == items[..n];
  }

  lemma WrittenTwice(inventory: map<ProductId, Inventory>, p: ProductId, first: Inventory, second: Inventory)
    ensures inventory[p := first][p := second] == inventory[p := second]
  {
  }

  lemma ResolvedAreDistinct(inventory: map<ProductId, Inventory>, c: Counter, items: seq<ItemRequest>)
    requires ResolveItems(inventory, At(c), items).Success? && DistinctProducts(items)
    ensures DistinctLines(ResolveItems(inventory, At(c), items).value)
  {
    CounterIsProper(c);
    ResolvedProducts(inventory, At(c), items);
  }

  lemma SameLineWhenReordered(lines: seq<Line>, sorted: seq<Line>, p: ProductId)
    requires DistinctLines(sorted) && multiset(lines) == multiset(sorted)
    ensures LineFor(lines, p).Some? ==> LineFor(sorted, p) == LineFor(lines, p)
  {
    if LineFor(lines, p).Some? {
      assert LineFor(lines, p).value in multiset(sorted);
      var i :| 0 <= i < |sorted| && sorted[i] == LineFor(lines, p).value;
      LineForAt(sorted, i);
    }
  }

  lemma ReorderedIsDistinct(lines: seq<Line>, sorted: seq<Line>)
    requires DistinctLines(lines) && multiset(sorted) == multiset(lines)
    ensures DistinctLines(sorted)
  {
    var product := (line: Line) => line.product;
    assert DistinctOn(lines, product);
    PermutationIsDistinct(lines, sorted, product);
    assert forall i, j | 0 <= i < j < |sorted| :: product(sorted[i]) != product(sorted[j]);
  }

  /** Distinct lines find the same line for each product whatever order they are in. */
  lemma SoldInAnyOrder(inventory: map<ProductId, Inventory>, lines: seq<Line>, sorted: seq<Line>)
    requires DistinctLines(lines) && DistinctLines(sorted) && multiset(lines) == multiset(sorted)
    ensures SoldInventory(inventory, lines) == SoldInventory(inventory, sorted)
  {
    forall p <- inventory
      ensures LineFor(lines, p) == LineFor(sorted, p)
    {
      SameLineWhenReordered(lines, sorted, p);
      SameLineWhenReordered(sorted, lines, p);
    }
  }

  lemma SoldOneMore(inventory: map<ProductId, Inventory>, sorted: seq<Line>, n: nat)
    requires DistinctLines(sorted) && n < |sorted|
    ensures
      var sold, line := SoldInventory(inventory, sorted[..n]), sorted[n];
      SoldInventory(inventory, sorted[..n + 1])
      == if line.product in sold then sold[line.product := SoldRow(sold[line.product], line)] else sold
  {
    var line := sorted[n];
    assert LineFor(sorted[..n], line.product).None?;
    assert sorted[..n + 1] == sorted[..n] + [line];
    if line.product in inventory {
      OneMoreLine(inventory, sorted[..n], line);
    } else {
      assert (sorted[..n] + [line])[..n] == sorted[..n];
      assert SoldInventory(inventory, sorted[..n] + [line]) == SoldInventory(inventory, sorted[..n]);
    }
  }

  lemma IdsAreDistinct(items: seq<ItemRequest>, ids: seq<ProductId>)
    requires |ids| == |items| && forall i | 0 <= i < |ids| :: ids[i] == items[i].product
    ensures DistinctProducts(items) <==> forall i, j :: 0 <= i < j < |ids| ==> ids[i] != ids[j]
  {
    if DistinctProducts(items) {
      assert forall i, j :: 0 <= i < j < |ids| ==> items[i].product != items[j].product;
    } else {
      var i, j :| 0 <= i < j < |items| && items[i].product == items[j].product;
      assert ids[i] == ids[j];
    }
  }

  lemma Inserted<T>(rows: seq<T>, at: nat, row: T)
    requires at <= |rows|
    ensures multiset(rows[..at] + [row] + rows[at..]) == multiset(rows) + multiset{row}
  {
    assert rows == rows[..at] + rows[at..];
  }

  /** Insertion sort with the comparison left open; the result is a reordering whatever it is. */
  method SortLines(lines: seq<Line>, before: (ProductId, ProductId) -> bool) returns (sorted: seq<Line>)
    ensures multiset(sorted) == multiset(lines)
  {
    sorted := [];
    for n := 0 to |lines|
      invariant multiset(sorted) == multiset(lines[..n])
    {
      var at := |sorted|;
      while 0 < at && before(lines[n].product, sorted[at - 1].product)
        invariant 0 <= at <= |sorted|
      {
        at := at - 1;
      }
      Inserted(sorted, at, lines[n]);
      assert lines[..n + 1] == lines[..n] + [lines[n]];
      sorted := sorted[..at] + [lines[n]] + sorted[at..];
    }
    assert lines[..|lines|] == lines;
  }

  class Tables {
    var sessions: seq<Session>
    var movements: seq<CashMovement>
    var sales: seq<Sale>
    var receivables: seq<Receivable>
    var collected: seq<Collected>
    var payouts: seq<Payout>
    var inventory: map<ProductId, Inventory>
    var log: seq<StockMovement>
    var items: seq<SaleItem>

    function Now(): Books
      reads this
    {
      Books(CashBooks(sessions, movements, sales, receivables, collected, payouts), StockBooks(inventory, log, items))
    }

    constructor ()
      ensures Now() == EMPTY_BOOKS
    {
      sessions, movements, sales, receivables, collected, payouts := [], [], [], [], [], [];
      inventory, log, items := map[], [], [];
    }

    // ----- PosService -----

    method OpenSession(user: UserId, openingCash: int) returns (r: Result<(), Error>)
      modifies this
      ensures Outcome(old(Now()), Now(), OpeningSession(user, openingCash), r)
    {
      if openingCash < 0 { return Failure(InvalidInput); }
      var existing := OpenSessionOf(sessions, user);
      if existing.Some? { return Failure(SessionAlreadyOpen); }
      sessions := sessions + [Session(user, openingCash, Open, None)];
      return Success(());
    }

    method CloseSession(user: UserId, s: nat, closingCash: int, settings: Option<CloseSettings>, hasReason: bool)
      returns (r: Result<(), Error>)
      modifies this
      ensures Outcome(old(Now()), Now(), ClosingSession(user, s, closingCash, settings, hasReason), r)
    {
      if closingCash < 0 { return Failure(InvalidInput); }
      if s >= |sessions| || !IsOpenFor(sessions[s], user) { return Failure(SessionNotFound); }
      var openingCash := sessions[s].openingCash;
      var expectedCash := openingCash + PosServiceTotal(MovementsOf(movements, s));
      TotalsAgree(MovementsOf(movements, s));
      SummaryExpectsClosingCash(openingCash, movements, s);
      var difference := closingCash - expectedCash;
      if difference != 0 && settings.Some? {
        if !settings.value.allowDiscrepancy { return Failure(DiscrepancyNotAllowed); }
        if settings.value.requireReason && !hasReason { return Failure(DiscrepancyReasonRequired); }
      }
      sessions := sessions[s := sessions[s].(status := Closed,
                           closing := Some(Closing(closingCash, expectedCash, difference)))];
      return Success(());
    }

    method CreateSale(user: UserId, c: Counter, request: SaleRequest, before: (ProductId, ProductId) -> bool)
      returns (r: Result<(), Error>)
      modifies this
      ensures Outcome(old(Now()), Now(), Selling(user, c, request), r)
    {
      var checked := AcceptSale(user, c, request);
      if checked.Failure? { return Failure(checked.error); }
      var (session, lines, st) := checked.value;
      WriteSale(session, st, lines);
      WriteStock(lines, before);
      WriteLog(lines, c.settings.autoRegisterWaste);
      return Success(());
    }

    /** The first half of a sale: everything that can refuse it, before anything is written. */
    method AcceptSale(user: UserId, c: Counter, request: SaleRequest)
      returns (r: Result<(nat, seq<Line>, Settlement), Error>)
      ensures r == CheckSale(Now(), user, c, request)
      ensures r.Success? ==> DistinctLines(r.value.1)
    {
      if request.items == [] || !ValidTender(request.tender) { return Failure(InvalidInput); }
      var session := OpenSessionOf(sessions, user);
      if session.None? { return Failure(NoOpenSession); }
      if request.member.MemberMissing? { return Failure(MemberNotFound); }
      if request.member.MemberInactive? { return Failure(MemberNotActive); }

      var ids := seq(|request.items|, i requires 0 <= i < |request.items| => request.items[i].product);
      var duplicated := FindDuplicatedProductIds(ids);
      IdsAreDistinct(request.items, ids);
      if duplicated != {} { return Failure(RepeatedProduct); }

      var priced := PriceLines(c, request.items);
      if priced.Failure? { return Failure(priced.error); }
      var (lines, subtotal) := priced.value;
      match Settle(subtotal, request.tender) {
        case Failure(e) => return Failure(e);
        case Success(st) => return Success((session.value, lines, st));
      }
    }

    /** Every item against the stock as it is, with the running subtotal. */
    method PriceLines(c: Counter, requested: seq<ItemRequest>) returns (r: Result<(seq<Line>, int), Error>)
      ensures
        match ResolveItems(inventory, At(c), requested)
        case Failure(e) => r == Failure(e)
        case Success(lines) => r == Success((lines, SumBy(lines, LineTotal)))
      ensures r.Success? && DistinctProducts(requested) ==> DistinctLines(r.value.0)
    {
      var subtotal := 0;
      var lines: seq<Line> := [];
      for n := 0 to |requested|
        invariant ResolveItems(inventory, At(c), requested[..n]) == Success(lines)
        invariant subtotal == SumBy(lines, LineTotal)
      {
        var item := requested[n];
        ResolveOneMore(inventory, At(c), requested, n, lines);
        match ResolveItem(c, item, Lookup(inventory, item.product)) {
          case Failure(e) =>
            PrefixFailureIsTheSales(inventory, At(c), requested, n + 1);
            return Failure(e);
          case Success(line) =>
            subtotal := subtotal + line.total;
            SumByAppend(lines, line, LineTotal);
            lines := lines + [line];
        }
      }
      assert requested[..|requested|] == requested;
      if DistinctProducts(requested) { ResolvedAreDistinct(inventory, c, requested); }
      return Success((lines, subtotal));
    }

    /** The sale row with its lines, its receivable if something is pending, and its cash movement. */
    method WriteSale(session: nat, st: Settlement, lines: seq<Line>)
      modifies this
      ensures Now().cash == PostSale(old(Now().cash), session, st)
      ensures items == old(items) + ItemsOfSale(lines, |old(sales)|)
      ensures inventory == old(inventory) && log == old(log)
    {
      var sale := |sales|;
      sales := sales + [Sale(session, st.total, st.amountPaid, st.amountPending, st.status, st.saleType, Completed)];
      items := items + ItemsOfSale(lines, sale);
      if st.amountPending > 0 {
        receivables := receivables + [Receivable(Some(sale), st.amountPending, 0, st.amountPending, ReceivableOpen)];
      }
      if st.amountPaid > 0 {
        movements := movements + [CashMovement(session, Some(sale), SaleCashIn, st.amountPaid, SaleContribution)];
      }
    }

    /** The sorted stock writes of a sale. */
    method WriteStock(lines: seq<Line>, before: (ProductId, ProductId) -> bool)
      requires DistinctLines(lines)
      modifies this`inventory
      ensures inventory == SoldInventory(old(inventory), lines)
    {
      var sorted := SortLines(lines, before);
      ReorderedIsDistinct(lines, sorted);
      assert SoldInventory(inventory, sorted[..0]) == inventory;
      for n := 0 to |sorted|
        invariant inventory == SoldInventory(old(inventory), sorted[..n])
      {
        var line := sorted[n];
        SoldOneMore(old(inventory), sorted, n);
        if line.product in inventory {
          inventory := inventory[line.product := SoldRow(inventory[line.product], line)];
        }
      }
      assert sorted[..|sorted|] == sorted;
      SoldInAnyOrder(old(inventory), lines, sorted);
    }

    /** The log entries of a sale, in line order. */
    method WriteLog(lines: seq<Line>, autoWaste: bool)
      modifies this`log
      ensures log == old(log) + SaleEntries(lines, autoWaste)
    {
      for n := 0 to |lines|
        invariant log == old(log) + SaleEntries(lines[..n], autoWaste)
      {
        assert lines[..n + 1][..n] == lines[..n];
        log := log + [SaleEntry(lines[n])];
        if lines[n].WasteQuantity() > 0 && autoWaste {
          log := log + [ScaleWasteEntry(lines[n])];
        }
      }
      assert lines[..|lines|] == lines;
    }

    method CancelSale(k: nat) returns (r: Result<(), Error>)
      modifies this
      ensures Outcome(old(Now()), Now(), CancellingSale(k), r)
    {
      if k >= |sales| { return Failure(SaleNotFound); }
      if sales[k].status == Cancelled { return Failure(SaleAlreadyCancelled); }
      if sales[k].status == Refunded { return Failure(SaleAlreadyRefunded); }
      var session := sales[k].session;
      sales := sales[k := sales[k].(status := Cancelled)];

      ReturnLines(k);

      var receivable := ReceivableOf(receivables, k);
      if receivable.Some? && receivables[receivable.value].status != ReceivableCancelled {
        receivables := receivables[receivable.value := receivables[receivable.value].(status := ReceivableCancelled)];
      }
      assert receivables == CancelReceivableOf(old(receivables), k);
      WriteCorrections(k, session);
      return Success(());
    }

    /** The requested quantity of each line of sale `k` goes back to stock, with its log entry. */
    method ReturnLines(k: nat)
      modifies this`inventory, this`log
      ensures StockBooks(inventory, log, items) == ReturnSale(old(Now().stock), k, |items|)
    {
      for n := 0 to |items|
        invariant StockBooks(inventory, log, items) == ReturnSale(old(Now().stock), k, n)
      {
        if items[n].sale == k {
          var p, quantity := items[n].line.product, items[n].line.quantity;
          if p in inventory {
            inventory := inventory[p := inventory[p].(current := Column(inventory[p].current + quantity))];
          }
          log := log + [StockMovement(p, Return, quantity, 0, 0, ByCancellation(k))];
        }
      }
    }

    /** A correction for each movement that brought cash in for sale `k`. */
    method WriteCorrections(k: nat, session: nat)
      modifies this`movements
      ensures movements == old(movements) + Corrections(old(movements), k, session)
    {
      var found := movements;
      for n := 0 to |found|
        invariant movements == found + Corrections(found[..n], k, session)
      {
        assert found[..n + 1][..n] == found[..n];
        if IsContribution(found[n], k) {
          movements := movements + [CashMovement(session, Some(k), CorrectionOut, found[n].amount, SaleCancellation)];
        }
      }
      assert found[..|found|] == found;
    }

    // ----- ReceivablesService -----

    method CreateManual(memberExists: bool, amount: int) returns (r: Result<(), Error>)
      modifies this
      ensures Outcome(old(Now()), Now(), CreatingReceivable(memberExists, amount), r)
    {
      if !memberExists { return Failure(MemberNotFound); }
      receivables := receivables + [Receivable(None, amount, 0, amount, ReceivableOpen)];
      return Success(());
    }

    method Pay(user: UserId, id: nat, amount: int) returns (r: Result<(), Error>)
      modifies this
      ensures Outcome(old(Now()), Now(), PayingReceivable(user, id, amount), r)
    {
      if amount < 1 { return Failure(InvalidInput); }
      if id >= |receivables| { return Failure(ReceivableNotFound); }
      var receivable := receivables[id];
      if receivable.status == ReceivablePaid || receivable.status == ReceivableCancelled {
        return Failure(ReceivableNotPayable);
      }
      if amount > receivable.outstanding { return Failure(AmountAbovePending); }
      var session := OpenSessionOf(sessions, user);
      if session.None? { return Failure(NoOpenSession); }
      var newOutstanding := receivable.outstanding - amount;
      var newStatus := if newOutstanding == 0 then ReceivablePaid else ReceivablePartlyPaid;
      collected := collected + [Collected(id, session.value, amount)];
      receivables := receivables[id := receivable.(paid := receivable.paid + amount, outstanding := newOutstanding,
                                                   status := newStatus)];
      movements := movements + [CashMovement(session.value, None, ReceivableCashIn, amount, Collection(id))];
      return Success(());
    }

    method Cancel(id: nat) returns (r: Result<(), Error>)
      modifies this
      ensures Outcome(old(Now()), Now(), CancellingReceivable(id), r)
    {
      if id >= |receivables| { return Failure(ReceivableNotFound); }
      var status := receivables[id].status;
      if status == ReceivablePaid || status == ReceivableCancelled { return Failure(ReceivableNotCancellable); }
      receivables := receivables[id := receivables[id].(status := ReceivableCancelled)];
      return Success(());
    }

    // ----- ThirdPartyPaymentsService -----

    method PayThirdParty(user: UserId, thirdPartyUsable: bool, amount: int) returns (r: Result<(), Error>)
      modifies this
      ensures Outcome(old(Now()), Now(), PayingThirdParty(user, thirdPartyUsable, amount), r)
    {
      if amount < 1 { return Failure(InvalidInput); }
      if !thirdPartyUsable { return Failure(ThirdPartyNotFound); }
      var session := OpenSessionOf(sessions, user);
      if session.None? { return Failure(NoOpenSession); }
      var payment := |payouts|;
      payouts := payouts + [Payout(session.value, amount, PayoutPaid)];
      movements := movements + [CashMovement(session.value, None, ThirdPartyCashOut, amount,
                                             ThirdPartyPayout(payment))];
      return Success(());
    }

    method CancelPayout(id: nat) returns (r: Result<(), Error>)
      modifies this
      ensures Outcome(old(Now()), Now(), CancellingPayout(id), r)
    {
      if id >= |payouts| { return Failure(PaymentNotFound); }
      var payment := payouts[id];
      if payment.status != PayoutPaid { return Failure(PaymentNotCancellable); }
      movements := movements + [CashMovement(payment.session, None, CorrectionIn, payment.amount,
                                             ThirdPartyReversal(id))];
      payouts := payouts[id := payment.(status := PayoutCancelled)];
      return Success(());
    }

    // ----- CashService -----

    method CreateMovement(user: UserId, permissions: set<string>, kind: CashType, amount: int)
      returns (r: Result<(), Error>)
      modifies this
      ensures Outcome(old(Now()), Now(), MovingCash(user, permissions, kind, amount), r)
    {
      if amount < 1 { return Failure(InvalidInput); }
      if !IsManual(kind) { return Failure(MovementTypeNotManual); }
      if kind == Withdrawal && "cash.withdraw" !in permissions { return Failure(MovementNotPermitted); }
      if kind == Expense && "cash.expense" !in permissions { return Failure(MovementNotPermitted); }
      if (kind == CorrectionIn || kind == CorrectionOut) && "cash.correction" !in permissions {
        return Failure(MovementNotPermitted);
      }
      var session := OpenSessionOf(sessions, user);
      if session.None? { return Failure(NoOpenSession); }
      movements := movements + [CashMovement(session.value, None, kind, amount, Manual)];
      return Success(());
    }

    // ----- InventoryService -----

    method EnsureInventory(p: ProductId)
      modifies this`inventory
      ensures p in inventory && inventory == old(inventory)[p := RowOf(old(inventory), p)]
    {
      if p !in inventory {
        inventory := inventory[p := EMPTY_ROW];
      }
    }

    method AddStock(catalog: Catalog, p: ProductId, input: QuantityInput) returns (r: Result<(), Error>)
      modifies this
      ensures Outcome(old(Now()), Now(), AddingStock(catalog, p, input), r)
    {
      if !Stockable(catalog, p) { return Failure(ProductNotFound); }
      match NormalizeStockQuantity(catalog[p].isBulk, input, false) {
        case Failure(e) => return Failure(e);
        case Success(quantity) =>
          EnsureInventory(p);
          var row := inventory[p];
          var newQuantity := row.current + quantity;
          var row' := row.(current := Column(newQuantity), totalIn := Column(row.totalIn + quantity));
          WrittenTwice(old(inventory), p, row, row');
          inventory := inventory[p := row'];
          log := log + [StockMovement(p, StockIn, quantity, row.current, newQuantity, ByHand)];
          return Success(());
      }
    }

    method AdjustStock(catalog: Catalog, p: ProductId, input: QuantityInput) returns (r: Result<(), Error>)
      modifies this
      ensures Outcome(old(Now()), Now(), AdjustingStock(catalog, p, input), r)
    {
      if !Stockable(catalog, p) { return Failure(ProductNotFound); }
      match NormalizeStockQuantity(catalog[p].isBulk, input, true) {
        case Failure(e) => return Failure(e);
        case Success(newQuantity) =>
          EnsureInventory(p);
          var row := inventory[p];
          var difference := newQuantity - row.current;
          var row' := row.(
                       current := Column(newQuantity),
                       totalOut := if difference < 0 then Column(row.totalOut - difference) else row.totalOut,
                       totalIn := if difference > 0 then Column(row.totalIn + difference) else row.totalIn);
          WrittenTwice(old(inventory), p, row, row');
          inventory := inventory[p := row'];
          log := log + [StockMovement(p, Adjustment, difference, row.current, newQuantity, ByAdjustment)];
          return Success(());
      }
    }

    method WasteStock(catalog: Catalog, p: ProductId, input: QuantityInput) returns (r: Result<(), Error>)
      modifies this
      ensures Outcome(old(Now()), Now(), WastingStock(catalog, p, input), r)
    {
      if !Stockable(catalog, p) { return Failure(ProductNotFound); }
      match NormalizeStockQuantity(catalog[p].isBulk, input, false) {
        case Failure(e) => return Failure(e);
        case Success(quantity) =>
          var row := RowOf(inventory, p);
          if quantity > row.current { return Failure(InsufficientStock); }
          var newQuantity := row.current - quantity;
          inventory := inventory[p := row.(current := Column(newQuantity), lost := Column(row.lost + quantity),
                                           totalOut := Column(row.totalOut + quantity))];
          log := log + [StockMovement(p, Waste, -quantity, row.current, newQuantity, ByWaste)];
          return Success(());
      }
    }
  }
}
