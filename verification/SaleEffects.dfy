/**
 What a sale does, told from its request: what each item asks for and costs, when it is refused, and what is handed
 over, owed and given back as change.
 */
module SaleEffects {
  import opened Prelude
  import opened CashLedger
  import opened Quantity
  import opened StockLedger
  import opened BatchSale
  import opened Club
  import opened ClubInvariants
  import opened CashEffects
  import Cash = CashInvariants

  // ----- figures of a request -----

  /** The first figure that the request gives, in the order the fields are looked at. */
  function FirstGiven(figures: seq<Option<int>>): Option<int> {
    if figures == [] then None else if figures[0].Some? then figures[0] else FirstGiven(figures[1..])
  }

  /** `r` is `n / d` to the nearest integer, ties up. */
  predicate IsNearest(r: int, n: nat, d: nat) {
    2 * d * r <= 2 * n + d < 2 * d * r + 2 * d
  }

  predicate ByItsAmount(item: ItemRequest, product: Product) {
    product.isBulk && item.amountEuros.Some?
  }

  /** The figure that says how much is wanted: an amount of money, or a quantity. */
  function Figure(item: ItemRequest, product: Product): Option<int> {
    if product.isBulk then FirstGiven([item.amountEuros, item.quantityKg, item.quantityGrams, item.quantity])
    else FirstGiven([item.quantityUnits, item.quantity])
  }

  predicate FigureIsPositive(item: ItemRequest, product: Product) {
    Figure(item, product).Some? && 0 < Figure(item, product).value
  }

  /** The item asks for the quantity `q`: the nearest that its amount buys, or the one it gives. */
  predicate Asks(item: ItemRequest, product: Product, q: int) {
    && FigureIsPositive(item, product)
    && if ByItsAmount(item, product)
       then 0 < product.price && IsNearest(q, item.amountEuros.value * 1000, product.price)
       else q == Figure(item, product).value
  }

  /** And costs `total`: the amount it gives, or the nearest cent to quantity times price. */
  predicate Costs(item: ItemRequest, product: Product, q: nat, total: int) {
    if ByItsAmount(item, product) then total == item.amountEuros.value
    else IsNearest(total, q * product.price, if product.isBulk then 1000 else 1_000_000)
  }

  lemma NearestIsRounded(n: nat, d: nat)
    requires 0 < d
    ensures IsNearest(RoundDiv(n, d), n, d)
    ensures forall r: int :: IsNearest(r, n, d) ==> r == RoundDiv(n, d)
  {
    RoundDivBounds(n, d);
    forall r: int | IsNearest(r, n, d)
      ensures r == RoundDiv(n, d)
    {
      MulOrder(2 * d, r + 1, RoundDiv(n, d));
      MulOrder(2 * d, RoundDiv(n, d) + 1, r);
    }
  }

  lemma FirstOfFour(a: Option<int>, b: Option<int>, c: Option<int>, d: Option<int>)
    ensures FirstGiven([c, d]) == if c.Some? then c else d
    ensures FirstGiven([a, b, c, d]) == if a.Some? then a else if b.Some? then b else if c.Some? then c else d
  {
    assert [a, b, c, d][1..] == [b, c, d] && [b, c, d][1..] == [c, d] && [c, d][1..] == [d] && [d][1..] == [];
    assert FirstGiven([d]) == d;
  }

  lemma FigureIs(item: ItemRequest, product: Product)
    ensures Figure(item, product)
         == if product.isBulk
            then Either(item.amountEuros, Either(item.quantityKg, Either(item.quantityGrams, item.quantity)))
            else Either(item.quantityUnits, item.quantity)
  {
    FirstOfFour(item.amountEuros, item.quantityKg, item.quantityGrams, item.quantity);
    FirstOfFour(None, None, item.quantityUnits, item.quantity);
  }

  lemma NormalizedMeans(item: ItemRequest, product: Product)
    ensures
      match NormalizeSaleItem(item, product)
      case Failure(e) =>
        || (e == QuantityNotPositive && !FigureIsPositive(item, product))
        || (e == PriceNotPositive && ByItsAmount(item, product) && product.price == 0)
      case Success(n) =>
        && Asks(item, product, n.quantity) && (forall q: int :: Asks(item, product, q) ==> q == n.quantity)
        && Costs(item, product, n.quantity, n.total)
        && n.mode == (if ByItsAmount(item, product) then ByAmount else if product.isBulk then ByWeight else ByUnit)
        && n.requestedAmount == (if ByItsAmount(item, product) then item.amountEuros else None)
  {
    FigureIs(item, product);
    if NormalizeSaleItem(item, product).Success? {
      var n := NormalizeSaleItem(item, product).value;
      if ByItsAmount(item, product) {
        NearestIsRounded(item.amountEuros.value * 1000, product.price);
      } else {
        NearestIsRounded(n.quantity * product.price, if product.isBulk then 1000 else 1_000_000);
      }
    }
  }

  // ----- items -----

  predicate IsWeighed(c: Counter, item: ItemRequest, product: Product) {
    product.isBulk && c.settings.scaleEnabled && item.actualWeight.Some?
  }

  /** What an item that asks for `q` takes from the stock: what it weighs, if it was weighed. */
  function Taken(c: Counter, item: ItemRequest, product: Product, q: int): int {
    if IsWeighed(c, item, product) then item.actualWeight.value else q
  }

  /** The surplus is within the fixed tolerance, or within the percentage of what was asked for, to the nearest. */
  predicate WithinTolerance(settings: SaleSettings, q: nat, surplus: int) {
    surplus <= settings.maxWaste || 20_000 * surplus <= 2 * q * settings.maxWastePercent + 10_000
  }

  /** A surplus above the tolerance is let through with a warning, or by a manager who gives a reason. */
  predicate LetThrough(c: Counter, item: ItemRequest) {
    match c.settings.toleranceAction
    case Block => false
    case RequireManagerConfirmation => c.canOverride && item.hasOverrideReason
    case AllowWithWarning => true
  }

  /** The weight of an item that asks for `q` is acceptable, or none is due. */
  predicate WeightFits(c: Counter, item: ItemRequest, product: Product, q: nat) {
    product.isBulk && c.settings.scaleEnabled ==>
      if item.actualWeight.None? then !c.settings.scaleRequired
      else
        var w := item.actualWeight.value;
        && 0 < w && item.scaleVerified && (q <= w || c.settings.allowUnderWeight)
        && (WithinTolerance(c.settings, q, w - q) || LetThrough(c, item))
  }

  predicate IsOnSale(c: Counter, p: ProductId) {
    p in c.catalog && c.catalog[p].status == ProductActive
  }

  /** The line says what the item asks for, what it costs, and what it takes from the stock. */
  predicate SoldAs(c: Counter, item: ItemRequest, line: Line)
    requires item.product in c.catalog
  {
    var product := c.catalog[item.product];
    && line.product == item.product
    && 0 <= line.quantity && Asks(item, product, line.quantity) && Costs(item, product, line.quantity, line.total)
    && line.mode == (if ByItsAmount(item, product) then ByAmount else if product.isBulk then ByWeight else ByUnit)
    && line.requestedAmount == (if ByItsAmount(item, product) then item.amountEuros else None)
    && (line.scale.Some? <==> IsWeighed(c, item, product))
    && line.StockQuantity() == Taken(c, item, product, line.quantity)
    && (line.scale.Some? ==> ScaleTells(c, line.scale.value, line.quantity))
  }

  predicate ScaleTells(c: Counter, d: ScaleData, q: nat) {
    && d.weightDifference == d.actualWeight - q && d.wasteQuantity == Max(d.weightDifference, 0)
    && (d.toleranceExceeded <==> !WithinTolerance(c.settings, q, d.wasteQuantity))
    && (d.overridden <==> d.toleranceExceeded && c.settings.toleranceAction == RequireManagerConfirmation)
  }

  /** Why an item is refused: for each error, what must have been so. */
  ghost predicate ItemRefused(c: Counter, item: ItemRequest, row: Option<Inventory>, e: Error) {
    if e == ProductNotFound then !IsOnSale(c, item.product)
    else if e == NoInventory then row.None?
    else
      && IsOnSale(c, item.product) && row.Some?
      && var product := c.catalog[item.product];
         match e
         case QuantityNotPositive =>
           !FigureIsPositive(item, product) || (IsWeighed(c, item, product) && item.actualWeight.value <= 0)
         case PriceNotPositive => ByItsAmount(item, product) && product.price == 0
         case ScaleWeightRequired =>
           product.isBulk && c.settings.scaleEnabled && c.settings.scaleRequired && item.actualWeight.None?
         case ScaleNotVerified => IsWeighed(c, item, product) && !item.scaleVerified
         case InsufficientStock =>
           exists q: nat :: Asks(item, product, q) && row.value.current < Taken(c, item, product, q)
         case UnderWeight =>
           && IsWeighed(c, item, product) && !c.settings.allowUnderWeight
           && exists q: nat :: Asks(item, product, q) && item.actualWeight.value < q
         case WasteAboveTolerance => c.settings.toleranceAction == Block && IsAboveTolerance(c, item, product)
         case OverrideNotPermitted =>
           c.settings.toleranceAction == RequireManagerConfirmation && !c.canOverride
             && IsAboveTolerance(c, item, product)
         case OverrideReasonRequired =>
           && c.settings.toleranceAction == RequireManagerConfirmation && !item.hasOverrideReason
           && IsAboveTolerance(c, item, product)
         case _ => false
  }

  ghost predicate IsAboveTolerance(c: Counter, item: ItemRequest, product: Product) {
    && IsWeighed(c, item, product)
    && exists q: nat :: Asks(item, product, q) && !WithinTolerance(c.settings, q, item.actualWeight.value - q)
  }

  lemma ToleranceIs(settings: SaleSettings, q: nat, surplus: int)
    ensures surplus <= MaxAllowedWaste(q, settings) <==> WithinTolerance(settings, q, surplus)
  {
    var share := RoundDiv(q * settings.maxWastePercent, 10_000);
    NearestIsRounded(q * settings.maxWastePercent, 10_000);
    assert 2 * (q * settings.maxWastePercent) == 2 * q * settings.maxWastePercent;
  }

  lemma WeighingMeans(c: Counter, item: ItemRequest, product: Product, q: nat, current: int)
    ensures
      match ResolveScaleData(item, product.isBulk, q, current, c.settings, c.canOverride)
      case Failure(e) =>
        !WeightFits(c, item, product, q) || current < Taken(c, item, product, q)
      case Success(None) => !IsWeighed(c, item, product) && WeightFits(c, item, product, q)
      case Success(Some(d)) =>
        && IsWeighed(c, item, product) && WeightFits(c, item, product, q)
        && d.actualWeight == item.actualWeight.value && ScaleTells(c, d, q)
  {
    if item.actualWeight.Some? {
      ToleranceIs(c.settings, q, item.actualWeight.value - q);
      ToleranceIs(c.settings, q, Max(item.actualWeight.value - q, 0));
    }
  }

  lemma WeighingRefused(c: Counter, item: ItemRequest, row: Inventory, q: nat)
    requires IsOnSale(c, item.product) && Asks(item, c.catalog[item.product], q)
    ensures
      var product := c.catalog[item.product];
      match ResolveScaleData(item, product.isBulk, q, row.current, c.settings, c.canOverride)
      case Failure(e) => ItemRefused(c, item, Some(row), e)
      case Success(_) => true
  {
    if item.actualWeight.Some? {
      ToleranceIs(c.settings, q, item.actualWeight.value - q);
      ToleranceIs(c.settings, q, Max(item.actualWeight.value - q, 0));
    }
  }

  /** An item is refused for the reason its error names, and otherwise sold as it asks, out of what is there. */
  lemma ItemMeans(c: Counter, item: ItemRequest, row: Option<Inventory>)
    ensures
      match ResolveItem(c, item, row)
      case Failure(e) => ItemRefused(c, item, row, e)
      case Success(line) =>
        && IsOnSale(c, item.product) && row.Some? && SoldAs(c, item, line)
        && WeightFits(c, item, c.catalog[item.product], line.quantity)
        && line.previous == row.value.current && line.StockQuantity() <= row.value.current
  {
    if IsOnSale(c, item.product) && row.Some? {
      var product := c.catalog[item.product];
      NormalizedMeans(item, product);
      if NormalizeSaleItem(item, product).Success? {
        var q := NormalizeSaleItem(item, product).value.quantity;
        WeighingMeans(c, item, product, q, row.value.current);
        WeighingRefused(c, item, row.value, q);
      }
    }
  }

  // ----- what is handed over -----

  function DiscountOf(t: Tender): int {
    if t.discount.Some? then t.discount.value else 0
  }

  /** The cash received, else the amount paid, else the sum of the payments; with none of them, all of `total`. */
  function HandedOver(t: Tender, total: int): int {
    var sum := if t.payments.Some? then Some(SumBy(t.payments.value, (p: TenderedPayment) => p.amount)) else None;
    var given := FirstGiven([t.cashReceived, t.amountPaid, sum]);
    if given.Some? then given.value else total
  }

  predicate OnlyCash(t: Tender) {
    t.payments.Some? ==> forall p <- t.payments.value :: p.means == Cash
  }

  lemma FirstOfThree(a: Option<int>, b: Option<int>, c: Option<int>)
    ensures FirstGiven([a, b, c]) == if a.Some? then a else if b.Some? then b else c
  {
    assert [a, b, c][1..] == [b, c] && [b, c][1..] == [c] && [c][1..] == [];
    assert FirstGiven([c]) == c;
  }

  lemma HandedOverIs(t: Tender, total: int)
    ensures HandedOver(t, total) == Tendered(t, total)
    ensures ValidTender(t) && 0 <= total ==> 0 <= HandedOver(t, total)
  {
    var sum := if t.payments.Some? then Some(SumBy(t.payments.value, (p: TenderedPayment) => p.amount)) else None;
    FirstOfThree(t.cashReceived, t.amountPaid, sum);
    if t.payments.Some? {
      SumByEqual(t.payments.value, (p: TenderedPayment) => p.amount, TenderedAmount);
      if ValidTender(t) {
        assert forall i | 0 <= i < |t.payments.value| :: t.payments.value[i] in t.payments.value;
        SumByNonnegative(t.payments.value, TenderedAmount);
      }
    }
  }

  /** A settlement of `subtotal`, told from the tender. */
  predicate SettledBy(st: Settlement, subtotal: int, t: Tender) {
    var total := subtotal - DiscountOf(t);
    var x := HandedOver(t, total);
    && st.subtotal == subtotal && st.discount == DiscountOf(t) && st.total == total && st.cashReceived == x
    && st.amountPaid == Min(x, total) && st.amountPending == Max(total - x, 0) && st.changeDue == Max(x - total, 0)
  }

  lemma SettledMeans(subtotal: nat, t: Tender)
    requires ValidTender(t)
    ensures
      match Settle(subtotal, t)
      case Failure(e) =>
        || (e == DiscountAboveSubtotal && subtotal < DiscountOf(t))
        || (e == CashOnly && !OnlyCash(t))
        || (e == CreditReasonRequired && !t.hasCreditReason
            && HandedOver(t, subtotal - DiscountOf(t)) < subtotal - DiscountOf(t))
      case Success(st) =>
        && DiscountOf(t) <= subtotal && OnlyCash(t) && SettledBy(st, subtotal, t)
        && (st.amountPending > 0 ==> t.hasCreditReason)
  {
    HandedOverIs(t, subtotal - DiscountOf(t));
  }

  // ----- sales -----

  /** The sale line rows that a sale appended. */
  function NewItems(b: Books, after: Books): seq<SaleItem>
    requires |b.stock.items| <= |after.stock.items|
  {
    after.stock.items[|b.stock.items|..]
  }

  function TotalOf(i: SaleItem): int { i.line.total }

  /** One row for each item of the request, in order, sold as it asks out of the stock there was. */
  ghost predicate ItemsSold(b: Books, after: Books, c: Counter, items: seq<ItemRequest>) {
    && |after.stock.items| == |b.stock.items| + |items| && after.stock.items[..|b.stock.items|] == b.stock.items
    && forall i | 0 <= i < |items| :: ItemSold(b, after, c, items[i], NewItems(b, after)[i])
  }

  ghost predicate ItemSold(b: Books, after: Books, c: Counter, item: ItemRequest, row: SaleItem) {
    && row.sale == |b.cash.sales| && IsOnSale(c, item.product) && item.product in b.stock.inventory
    && SoldAs(c, item, row.line) && WeightFits(c, item, c.catalog[item.product], row.line.quantity)
    && row.line.StockQuantity() <= row.line.previous == b.stock.inventory[item.product].current
  }

  /** The rows that a sale of `total` with `x` handed over writes on the cash side. */
  ghost predicate SaleEntered(b: CashBooks, after: CashBooks, user: UserId, total: int, x: int) {
    && |after.sales| == |b.sales| + 1
    && var sale := after.sales[|b.sales|];
       && TillOf(b, sale.session, user) && sale.status == Completed
       && sale.total == total && sale.amountPaid == Min(x, total) && sale.amountPending == Max(total - x, 0)
       && Cash.SaleSettled(sale)
       && after == b.(sales := b.sales + [sale], receivables := after.receivables, movements := after.movements)
       && TillMoves(b, after, user, Min(x, total))
       && after.receivables == b.receivables
          + if x < total then [Receivable(Some(|b.sales|), total - x, 0, total - x, ReceivableOpen)] else []
  }

  predicate RequestFits(request: SaleRequest) {
    && request.items != [] && ValidTender(request.tender) && request.member.MemberActive?
    && DistinctProducts(request.items) && OnlyCash(request.tender)
  }

  /** Of an accepted tender: what is missing has a reason, and what is too much is the change. */
  predicate IsChange(t: Tender, total: int, change: int) {
    var x := HandedOver(t, total);
    0 <= total && 0 <= x && (x < total ==> t.hasCreditReason) && change == Max(x - total, 0)
  }

  lemma PostingMoves(b: CashBooks, user: UserId, session: nat, st: Settlement)
    requires Cash.Valid(b) && OpenSessionOf(b.sessions, user) == Some(session) && 0 <= st.amountPaid
    ensures TillOf(b, session, user) && TillMoves(b, PostSale(b, session, st), user, st.amountPaid)
  {
    var b' := PostSale(b, session, st);
    TillIsFound(b, user);
    forall s: nat
      ensures SessionCash(b', s) == SessionCash(b, s) + if TillOf(b, s, user) then st.amountPaid else 0
    {
      Cash.ContributionAdds(b.movements, session, |b.sales|, st.amountPaid, s);
      assert b'.movements == b.movements + Cash.Contribution(session, |b.sales|, st.amountPaid);
    }
  }

  lemma PostedRows(b: CashBooks, user: UserId, session: nat, st: Settlement, x: int)
    requires TillOf(b, session, user) && TillMoves(b, PostSale(b, session, st), user, st.amountPaid)
    requires st.amountPaid == Min(x, st.total) && st.amountPending == Max(st.total - x, 0)
    requires Cash.SaleSettled(Sale(session, st.total, st.amountPaid, st.amountPending, st.status, st.saleType,
                                   Completed))
    ensures SaleEntered(b, PostSale(b, session, st), user, st.total, x)
  {
  }

  lemma EnteredSale(b: CashBooks, user: UserId, session: nat, st: Settlement, subtotal: nat, t: Tender)
    requires Cash.Valid(b) && OpenSessionOf(b.sessions, user) == Some(session)
    requires ValidTender(t) && Settle(subtotal, t) == Success(st)
    ensures SaleEntered(b, PostSale(b, session, st), user, st.total, HandedOver(t, st.total)) && HasTill(b, user)
    ensures IsChange(t, subtotal - DiscountOf(t), st.changeDue) && st.total == subtotal - DiscountOf(t)
  {
    SettledMeans(subtotal, t);
    HandedOverIs(t, st.total);
    AcceptedSettlement(subtotal, t, session);
    PostingMoves(b, user, session, st);
    PostedRows(b, user, session, st, HandedOver(t, st.total));
    assert TillOf(b, session, user);
  }

  lemma {:induction false} LinesTotal(lines: seq<Line>, k: nat)
    ensures SumBy(ItemsOfSale(lines, k), TotalOf) == SumBy(lines, LineTotal)
  {
    if lines != [] {
      LinesTotal(lines[..|lines| - 1], k);
      SumByAppend(ItemsOfSale(lines[..|lines| - 1], k), SaleItem(k, lines[|lines| - 1]), TotalOf);
    }
  }

  lemma SoldItems(b: Books, session: nat, c: Counter, items: seq<ItemRequest>, lines: seq<Line>, st: Settlement)
    requires ResolveItems(b.stock.inventory, At(c), items) == Success(lines)
    ensures
      var after := Posted(b, session, lines, st, c.settings.autoRegisterWaste);
      ItemsSold(b, after, c, items) && SumBy(NewItems(b, after), TotalOf) == SumBy(lines, LineTotal)
  {
    var after := Posted(b, session, lines, st, c.settings.autoRegisterWaste);
    CounterIsProper(c);
    ResolvedProducts(b.stock.inventory, At(c), items);
    SaleItemsAreOf(lines, |b.cash.sales|);
    LinesTotal(lines, |b.cash.sales|);
    assert NewItems(b, after) == ItemsOfSale(lines, |b.cash.sales|);
    forall i | 0 <= i < |items|
      ensures ItemSold(b, after, c, items[i], NewItems(b, after)[i])
    {
      assert At(c)(items[i], Lookup(b.stock.inventory, items[i].product)) == Success(lines[i]);
      ItemMeans(c, items[i], Lookup(b.stock.inventory, items[i].product));
    }
  }

  /**
   A sale as asked: each item is sold as it asks, the total is the sum of the lines less the discount, the user's till
   takes in what was handed over up to that total, what is missing is owed on a new receivable, and what is too much is
   change.
   */
  ghost predicate SaleMade(b: Books, after: Books, user: UserId, c: Counter, request: SaleRequest, change: int) {
    && RequestFits(request) && HasTill(b.cash, user) && ItemsSold(b, after, c, request.items)
    && var total := SumBy(NewItems(b, after), TotalOf) - DiscountOf(request.tender);
       && IsChange(request.tender, total, change)
       && SaleEntered(b.cash, after.cash, user, total, HandedOver(request.tender, total))
  }

  lemma SaleIsMade(b: Books, after: Books, user: UserId, c: Counter, request: SaleRequest, session: nat, subtotal: nat,
                   st: Settlement)
    requires Cash.Valid(b.cash) && RequestFits(request) && OpenSessionOf(b.cash.sessions, user) == Some(session)
    requires ItemsSold(b, after, c, request.items) && SumBy(NewItems(b, after), TotalOf) == subtotal
    requires Settle(subtotal, request.tender) == Success(st) && after.cash == PostSale(b.cash, session, st)
    ensures SaleMade(b, after, user, c, request, st.changeDue)
  {
    EnteredSale(b.cash, user, session, st, subtotal, request.tender);
  }

  lemma SellingIsPosting(b: Books, user: UserId, c: Counter, request: SaleRequest)
    requires CheckSale(b, user, c, request).Success?
    ensures
      var (session, lines, st) := CheckSale(b, user, c, request).value;
      Apply(b, Selling(user, c, request)) == Posted(b, session, lines, st, c.settings.autoRegisterWaste)
  {
  }

  lemma CheckedRequest(b: Books, user: UserId, c: Counter, request: SaleRequest)
    requires Valid(b) && CheckSale(b, user, c, request).Success?
    ensures RequestFits(request)
  {
    CheckedParts(b, user, c, request);
    var lines := CheckSale(b, user, c, request).value.1;
    AcceptedLines(b.stock, c, request.items);
    SettledMeans(SumBy(lines, LineTotal), request.tender);
  }

  /** Every accepted sale is the sale that was asked for. */
  lemma SaleMeans(b: Books, user: UserId, c: Counter, request: SaleRequest)
    requires Valid(b) && CheckSale(b, user, c, request).Success?
    ensures SaleMade(b, Apply(b, Selling(user, c, request)), user, c, request,
                     CheckSale(b, user, c, request).value.2.changeDue)
  {
    var (session, lines, st) := CheckSale(b, user, c, request).value;
    CheckedParts(b, user, c, request);
    CheckedRequest(b, user, c, request);
    AcceptedLines(b.stock, c, request.items);
    SoldItems(b, session, c, request.items, lines, st);
    SellingIsPosting(b, user, c, request);
    SaleIsMade(b, Apply(b, Selling(user, c, request)), user, c, request, session, SumBy(lines, LineTotal), st);
  }

  // ----- refusals -----

  /** What the items would be sold as. */
  ghost predicate PricedAs(c: Counter, items: seq<ItemRequest>, lines: seq<Line>) {
    && |lines| == |items|
    && forall i | 0 <= i < |items| :: IsOnSale(c, items[i].product) && SoldAs(c, items[i], lines[i])
  }

  ghost predicate ItemIsRefused(b: Books, c: Counter, items: seq<ItemRequest>, i: nat, e: Error)
    requires i < |items|
  {
    ItemRefused(c, items[i], Lookup(b.stock.inventory, items[i].product), e)
  }

  /** Why a sale is refused: for each error, what must have been so. */
  ghost predicate SaleRefused(b: Books, user: UserId, c: Counter, request: SaleRequest, e: Error) {
    var t := request.tender;
    match e
    case InvalidInput => request.items == [] || !ValidTender(t)
    case NoOpenSession => !HasTill(b.cash, user)
    case MemberNotFound => request.member.MemberMissing?
    case MemberNotActive => request.member.MemberInactive?
    case RepeatedProduct => !DistinctProducts(request.items)
    case CashOnly => !OnlyCash(t)
    case DiscountAboveSubtotal =>
      exists lines: seq<Line> :: PricedAs(c, request.items, lines) && SumBy(lines, LineTotal) < DiscountOf(t)
    case CreditReasonRequired =>
      && !t.hasCreditReason
      && exists lines: seq<Line> ::
           PricedAs(c, request.items, lines) && IsShort(t, SumBy(lines, LineTotal) - DiscountOf(t))
    case _ => exists i: nat | i < |request.items| :: ItemIsRefused(b, c, request.items, i, e)
  }

  predicate IsShort(t: Tender, total: int) {
    HandedOver(t, total) < total
  }

  lemma {:induction false} FirstItemRefused(b: Books, c: Counter, items: seq<ItemRequest>)
    requires ResolveItems(b.stock.inventory, At(c), items).Failure?
    ensures exists i: nat | i < |items| ::
              ItemIsRefused(b, c, items, i, ResolveItems(b.stock.inventory, At(c), items).error)
  {
    var init, n := items[..|items| - 1], |items| - 1;
    if ResolveItems(b.stock.inventory, At(c), init).Failure? {
      FirstItemRefused(b, c, init);
      var e := ResolveItems(b.stock.inventory, At(c), init).error;
      var i: nat :| i < |init| && ItemIsRefused(b, c, init, i, e);
      assert ItemIsRefused(b, c, items, i, e);
    } else {
      ItemMeans(c, items[n], Lookup(b.stock.inventory, items[n].product));
      assert ItemIsRefused(b, c, items, n, ResolveItems(b.stock.inventory, At(c), items).error);
    }
  }

  lemma ResolvedArePriced(b: Books, c: Counter, items: seq<ItemRequest>)
    requires ResolveItems(b.stock.inventory, At(c), items).Success?
    ensures PricedAs(c, items, ResolveItems(b.stock.inventory, At(c), items).value)
  {
    var lines := ResolveItems(b.stock.inventory, At(c), items).value;
    CounterIsProper(c);
    ResolvedProducts(b.stock.inventory, At(c), items);
    forall i | 0 <= i < |items|
      ensures IsOnSale(c, items[i].product) && SoldAs(c, items[i], lines[i])
    {
      assert At(c)(items[i], Lookup(b.stock.inventory, items[i].product)) == Success(lines[i]);
      ItemMeans(c, items[i], Lookup(b.stock.inventory, items[i].product));
    }
  }

  lemma SettlementRefused(b: Books, user: UserId, c: Counter, request: SaleRequest, lines: seq<Line>)
    requires PricedAs(c, request.items, lines) && 0 <= SumBy(lines, LineTotal) && ValidTender(request.tender)
    requires Settle(SumBy(lines, LineTotal), request.tender).Failure?
    ensures SaleRefused(b, user, c, request, Settle(SumBy(lines, LineTotal), request.tender).error)
  {
    SettledMeans(SumBy(lines, LineTotal), request.tender);
    assert HandedOver(request.tender, SumBy(lines, LineTotal) - DiscountOf(request.tender))
           < SumBy(lines, LineTotal) - DiscountOf(request.tender)
      ==> IsShort(request.tender, SumBy(lines, LineTotal) - DiscountOf(request.tender));
  }

  lemma ItemErrorsAre(c: Counter, item: ItemRequest, row: Option<Inventory>, e: Error)
    requires ItemRefused(c, item, row, e)
    ensures e !in {InvalidInput, NoOpenSession, MemberNotFound, MemberNotActive, RepeatedProduct, CashOnly,
                   DiscountAboveSubtotal, CreditReasonRequired}
  {
  }

  lemma ItemErrorRefuses(b: Books, user: UserId, c: Counter, request: SaleRequest, i: nat, e: Error)
    requires i < |request.items| && ItemIsRefused(b, c, request.items, i, e)
    ensures SaleRefused(b, user, c, request, e)
  {
    ItemErrorsAre(c, request.items[i], Lookup(b.stock.inventory, request.items[i].product), e);
  }

  /** Where a refusal comes from. */
  lemma RefusedWhere(b: Books, user: UserId, c: Counter, request: SaleRequest)
    requires Valid(b) && CheckSale(b, user, c, request).Failure?
    ensures
      var e, items := CheckSale(b, user, c, request).error, request.items;
      || (e in {InvalidInput, NoOpenSession, MemberNotFound, MemberNotActive, RepeatedProduct}
          && SaleRefused(b, user, c, request, e))
      || (items != [] && ResolveItems(b.stock.inventory, At(c), items) == Failure(e))
      || (ValidTender(request.tender) && ResolveItems(b.stock.inventory, At(c), items).Success?
          && Settle(SumBy(ResolveItems(b.stock.inventory, At(c), items).value, LineTotal), request.tender)
             == Failure(e))
  {
    TillIsFound(b.cash, user);
  }

  /** No sale is refused without the reason that its error names. */
  lemma RefusalMeans(b: Books, user: UserId, c: Counter, request: SaleRequest)
    requires Valid(b) && CheckSale(b, user, c, request).Failure?
    ensures SaleRefused(b, user, c, request, CheckSale(b, user, c, request).error)
  {
    RefusedWhere(b, user, c, request);
    var e, resolved := CheckSale(b, user, c, request).error, ResolveItems(b.stock.inventory, At(c), request.items);
    if resolved == Failure(e) && request.items != [] {
      FirstItemRefused(b, c, request.items);
      var i: nat :| i < |request.items| && ItemIsRefused(b, c, request.items, i, e);
      ItemErrorRefuses(b, user, c, request, i, e);
    } else if resolved.Success? && ValidTender(request.tender)
              && Settle(SumBy(resolved.value, LineTotal), request.tender) == Failure(e) {
      ResolvedArePriced(b, c, request.items);
      AcceptedLines(b.stock, c, request.items);
      SettlementRefused(b, user, c, request, resolved.value);
    }
  }
}
