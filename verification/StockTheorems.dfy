/** The results about the stock in every state the club's books can reach. */
module StockTheorems {
  import opened Prelude
  import opened CashLedger
  import opened Quantity
  import opened StockLedger
  import opened Club
  import opened ClubInvariants
  import opened StockReplay
  import opened StockChanges
  import opened ClubTheorems
  import opened BatchSale

  // ----- every run -----

  /** Replaying the log misses the stock by the unlogged scale surplus and the gram roundings, in every run. */
  lemma ReplayedLog(steps: seq<Step>, p: ProductId)
    ensures LogGap(Reached(steps).stock, p)
            == UnloggedSurplus(Reached(steps).stock, p) + Residues(Reached(steps).stock, p)
  {
    ReachedIsValid(steps);
    LogAgainstStock(Reached(steps).stock, p);
  }

  /**
   In every run stock is never negative, lost is within what went out, and stock is what came in, less what went out,
   plus the logged returns, plus one gram for each outgoing tie and what rounding made of the returns. The lost
   quantity is the waste logged by hand plus what rounding made of it.
   */
  lemma StockCounters(steps: seq<Step>, p: ProductId)
    ensures
      var stock := Reached(steps).stock;
      var row := RowOf(stock.inventory, p);
      && 0 <= row.current && 0 <= row.lost <= row.totalOut && 0 <= Ties(stock, p)
      && row.current == row.totalIn - row.totalOut + SumBy(stock.log, Stock.Returned(p))
                        + Ties(stock, p) + SumBy(stock.log, ReturnRounding(p))
      && row.lost == SumBy(stock.log, Stock.Wasted(p)) + SumBy(stock.log, WasteRounding(p))
  {
    ReachedIsValid(steps);
    var stock := Reached(steps).stock;
    assert Stock.RowExact(stock, p);
    LostWithinOut(stock, p);
    CountersAgainstStock(stock, p);
    LostAgainstWaste(stock, p);
    SumByNonnegative(stock.log, EntryTie(p));
    SumByNonnegative(stock.items, LineTie(p));
  }

  // ----- accounts that agree at every moment of a run -----

  predicate StepKeeps(steps: seq<Step>, n: nat, keeps: (Books, Step) -> bool)
    requires n < |steps|
  {
    keeps(Reached(steps[..n]), steps[n])
  }

  predicate ZeroAfter(steps: seq<Step>, n: nat, gap: Books -> int)
    requires n <= |steps|
  {
    gap(Reached(steps[..n])) == 0
  }

  /** A step leaves the gap as it is exactly when it keeps it. */
  predicate StepDecides(steps: seq<Step>, n: nat, gap: Books -> int, keeps: (Books, Step) -> bool)
    requires n < |steps|
  {
    gap(Apply(Reached(steps[..n]), steps[n])) == gap(Reached(steps[..n])) <==> StepKeeps(steps, n, keeps)
  }

  /** A gap that starts at zero is zero throughout the run exactly when every step keeps it. */
  lemma ZeroThroughout(steps: seq<Step>, gap: Books -> int, keeps: (Books, Step) -> bool)
    requires gap(EMPTY_BOOKS) == 0 && forall n | 0 <= n < |steps| :: StepDecides(steps, n, gap, keeps)
    ensures (forall n | 0 <= n <= |steps| :: ZeroAfter(steps, n, gap)) <==>
            (forall n | 0 <= n < |steps| :: StepKeeps(steps, n, keeps))
  {
    forall n | 0 <= n < |steps|
      ensures Reached(steps[..n + 1]) == Apply(Reached(steps[..n]), steps[n])
    {
      assert steps[..n + 1][..n] == steps[..n];
    }
    if forall n | 0 <= n < |steps| :: StepKeeps(steps, n, keeps) {
      forall n | 0 <= n <= |steps|
        ensures ZeroAfter(steps, n, gap)
      {
        StaysZero(steps, n, gap, keeps);
      }
    }
    if forall n | 0 <= n <= |steps| :: ZeroAfter(steps, n, gap) {
      forall n | 0 <= n < |steps|
        ensures StepKeeps(steps, n, keeps)
      {
        assert ZeroAfter(steps, n, gap) && ZeroAfter(steps, n + 1, gap) && StepDecides(steps, n, gap, keeps);
      }
    }
  }

  lemma {:induction false} StaysZero(steps: seq<Step>, n: nat, gap: Books -> int, keeps: (Books, Step) -> bool)
    requires n <= |steps| && gap(EMPTY_BOOKS) == 0
    requires forall i | 0 <= i < n :: StepDecides(steps, i, gap, keeps) && StepKeeps(steps, i, keeps)
    ensures ZeroAfter(steps, n, gap)
  {
    if n > 0 {
      StaysZero(steps, n - 1, gap, keeps);
      assert steps[..n][..n - 1] == steps[..n - 1];
      assert StepDecides(steps, n - 1, gap, keeps);
    }
  }

  function LogGapOf(p: ProductId): Books -> int {
    (b: Books) => LogGap(b.stock, p)
  }

  function MovingWholeGrams(p: ProductId): (Books, Step) -> bool {
    (b: Books, step: Step) => MovesWholeGrams(b, step, p)
  }

  function LoggingWhatMoves(p: ProductId): (Books, Step) -> bool {
    (b: Books, step: Step) => LogsWhatItMoves(b, step, p)
  }

  function UnexplainedGapOf(p: ProductId): Books -> int {
    (b: Books) => UnexplainedGap(b.stock, p)
  }

  function UnloggedSurplusOf(p: ProductId): Books -> int {
    (b: Books) => UnloggedSurplus(b.stock, p)
  }

  function LoggingSurplus(p: ProductId): (Books, Step) -> bool {
    (b: Books, step: Step) => LogsItsSurplus(b, step, p)
  }

  /**
   Under any settings, the log of `p` less its stock is the weighed surplus not logged as waste, at every moment of a
   run, exactly when every step moves whole grams of `p`, or none: which can be told from the step and the books
   before it.
   */
  lemma LogExplainedExactlyWhen(steps: seq<Step>, p: ProductId)
    ensures (forall n | 0 <= n <= |steps| :: ZeroAfter(steps, n, UnexplainedGapOf(p))) <==>
            (forall n | 0 <= n < |steps| :: StepKeeps(steps, n, MovingWholeGrams(p)))
  {
    forall n | 0 <= n < |steps|
      ensures StepDecides(steps, n, UnexplainedGapOf(p), MovingWholeGrams(p))
    {
      ReachedIsValid(steps[..n]);
      StepIsExplainedExactlyWhen(Reached(steps[..n]), steps[n], p);
    }
    ZeroThroughout(steps, UnexplainedGapOf(p), MovingWholeGrams(p));
  }

  /** No surplus of `p` is unlogged at any moment of a run exactly when every sale logs what it weighed. */
  lemma SurplusLoggedExactlyWhen(steps: seq<Step>, p: ProductId)
    ensures (forall n | 0 <= n <= |steps| :: ZeroAfter(steps, n, UnloggedSurplusOf(p))) <==>
            (forall n | 0 <= n < |steps| :: StepKeeps(steps, n, LoggingSurplus(p)))
  {
    forall n | 0 <= n < |steps|
      ensures StepDecides(steps, n, UnloggedSurplusOf(p), LoggingSurplus(p))
    {
      ReachedIsValid(steps[..n]);
      StepLogsItsSurplusExactlyWhen(Reached(steps[..n]), steps[n], p);
    }
    ZeroThroughout(steps, UnloggedSurplusOf(p), LoggingSurplus(p));
  }

  /** So with waste registered and under-weight lines refused every gram of surplus is logged. */
  lemma RunLogsItsWaste(steps: seq<Step>, p: ProductId)
    requires forall step <- steps :: LogsAllWaste(step)
    ensures UnloggedSurplus(Reached(steps).stock, p) == 0
  {
    forall n | 0 <= n < |steps|
      ensures StepKeeps(steps, n, LoggingSurplus(p))
    {
      ReachedIsValid(steps[..n]);
      assert steps[n] in steps;
      StepLogsItsWaste(Reached(steps[..n]), steps[n], p);
    }
    SurplusLoggedExactlyWhen(steps, p);
    assert ZeroAfter(steps, |steps|, UnloggedSurplusOf(p)) && steps[..|steps|] == steps;
  }

  /** The log of `p` sums to its stock at every moment of a run exactly when every step logs what it moves of `p`. */
  lemma LogAgreesExactlyWhen(steps: seq<Step>, p: ProductId)
    ensures (forall n | 0 <= n <= |steps| :: ZeroAfter(steps, n, LogGapOf(p))) <==>
            (forall n | 0 <= n < |steps| :: StepKeeps(steps, n, LoggingWhatMoves(p)))
  {
    forall n | 0 <= n < |steps|
      ensures StepDecides(steps, n, LogGapOf(p), LoggingWhatMoves(p))
    {
      ReachedIsValid(steps[..n]);
      StepKeepsLogGapExactlyWhen(Reached(steps[..n]), steps[n], p);
    }
    ZeroThroughout(steps, LogGapOf(p), LoggingWhatMoves(p));
  }

  /** With waste registered and under-weight lines refused that is: exactly when every step moves whole grams. */
  lemma WasteLoggedAgreesExactlyWhen(steps: seq<Step>, p: ProductId)
    requires forall step <- steps :: LogsAllWaste(step)
    ensures (forall n | 0 <= n <= |steps| :: ZeroAfter(steps, n, LogGapOf(p))) <==>
            (forall n | 0 <= n < |steps| :: StepKeeps(steps, n, MovingWholeGrams(p)))
  {
    LogAgreesExactlyWhen(steps, p);
    forall n | 0 <= n < |steps|
      ensures StepKeeps(steps, n, LoggingWhatMoves(p)) <==> StepKeeps(steps, n, MovingWholeGrams(p))
    {
      ReachedIsValid(steps[..n]);
      assert steps[n] in steps;
      StepKeepsLogGapExactlyWhen(Reached(steps[..n]), steps[n], p);
    }
  }

  /** So a run of such steps ends with the log replaying to the stock. */
  lemma LogReplaysToStock(steps: seq<Step>, p: ProductId)
    requires forall n | 0 <= n < |steps| :: LogsWhatItMoves(Reached(steps[..n]), steps[n], p)
    ensures LogTotal(Reached(steps).stock, p) == RowOf(Reached(steps).stock.inventory, p).current
  {
    forall n | 0 <= n < |steps|
      ensures StepKeeps(steps, n, LoggingWhatMoves(p))
    {
      assert LogsWhatItMoves(Reached(steps[..n]), steps[n], p);
    }
    LogAgreesExactlyWhen(steps, p);
    assert ZeroAfter(steps, |steps|, LogGapOf(p)) && steps[..|steps|] == steps;
  }

  function CounterGapOf(p: ProductId): Books -> int {
    (b: Books) => CounterGap(b.stock, p)
  }

  function CountingExactly(p: ProductId): (Books, Step) -> bool {
    (b: Books, step: Step) => CountsExactly(b, step, p)
  }

  /**
   Stock is what came in, less what went out, plus the logged returns, at every moment of a run exactly when no step
   takes a quantity of `p` that ends in half a gram and none gives back a fraction of grams.
   */
  lemma CountersAgreeExactlyWhen(steps: seq<Step>, p: ProductId)
    ensures (forall n | 0 <= n <= |steps| :: ZeroAfter(steps, n, CounterGapOf(p))) <==>
            (forall n | 0 <= n < |steps| :: StepKeeps(steps, n, CountingExactly(p)))
  {
    forall n | 0 <= n < |steps|
      ensures StepDecides(steps, n, CounterGapOf(p), CountingExactly(p))
    {
      ReachedIsValid(steps[..n]);
      StepKeepsCounterGapExactlyWhen(Reached(steps[..n]), steps[n], p);
    }
    ZeroThroughout(steps, CounterGapOf(p), CountingExactly(p));
  }

  function LostGapOf(p: ProductId): Books -> int {
    (b: Books) => LostGap(b.stock, p)
  }

  function WastingWholeGrams(p: ProductId): (Books, Step) -> bool {
    (b: Books, step: Step) => WastesWholeGrams(b, step, p)
  }

  /** The lost quantity is the waste logged by hand at every moment exactly when every waste is in whole grams. */
  lemma LostAgreesExactlyWhen(steps: seq<Step>, p: ProductId)
    ensures (forall n | 0 <= n <= |steps| :: ZeroAfter(steps, n, LostGapOf(p))) <==>
            (forall n | 0 <= n < |steps| :: StepKeeps(steps, n, WastingWholeGrams(p)))
  {
    forall n | 0 <= n < |steps|
      ensures StepDecides(steps, n, LostGapOf(p), WastingWholeGrams(p))
    {
      ReachedIsValid(steps[..n]);
      StepKeepsLostGapExactlyWhen(Reached(steps[..n]), steps[n], p);
    }
    ZeroThroughout(steps, LostGapOf(p), WastingWholeGrams(p));
  }

  // ----- requests in whole grams -----

  /** What the request asks for, and what it weighs if it says so, are in whole grams. */
  predicate AsksWholeGrams(c: Counter, item: ItemRequest) {
    && (item.product in c.catalog && NormalizeSaleItem(item, c.catalog[item.product]).Success? ==>
          WholeGrams(NormalizeSaleItem(item, c.catalog[item.product]).value.quantity))
    && (item.actualWeight.Some? ==> WholeGrams(item.actualWeight.value))
  }

  /** A condition on the step's request alone. */
  predicate RequestsWholeGrams(step: Step, p: ProductId) {
    if step.Selling? then forall item <- step.request.items | item.product == p :: AsksWholeGrams(step.counter, item)
    else IsStockOnly(step) && step.product == p ==> WholeGrams(InputQuantity(step))
  }

  lemma ResolvedInWholeGrams(c: Counter, item: ItemRequest, row: Option<Inventory>)
    requires AsksWholeGrams(c, item) && ResolveItem(c, item, row).Success?
    ensures WholeGrams(ResolveItem(c, item, row).value.quantity)
            && WholeGrams(ResolveItem(c, item, row).value.StockQuantity())
  {
  }

  lemma SoldInWholeGrams(b: Books, step: Step, p: ProductId, line: Line)
    requires step.Selling? && RequestsWholeGrams(step, p)
             && CreateSale(b, step.user, step.counter, step.request).Success?
    requires line in CheckSale(b, step.user, step.counter, step.request).value.1 && line.product == p
    ensures WholeGrams(line.quantity) && WholeGrams(line.StockQuantity())
  {
    var items, lines := step.request.items, CheckSale(b, step.user, step.counter, step.request).value.1;
    CounterIsProper(step.counter);
    CheckedParts(b, step.user, step.counter, step.request);
    ResolvedProducts(b.stock.inventory, At(step.counter), items);
    var i :| 0 <= i < |lines| && lines[i] == line;
    assert items[i] in items;
    ResolvedInWholeGrams(step.counter, items[i], Lookup(b.stock.inventory, items[i].product));
  }

  /** Every line for `p` asked for whole grams. */
  ghost predicate LinesInWholeGrams(items: seq<SaleItem>, p: ProductId) {
    forall i <- items | i.line.product == p :: WholeGrams(i.line.quantity)
  }

  lemma StepInWholeGrams(b: Books, step: Step, p: ProductId)
    requires LinesInWholeGrams(b.stock.items, p) && RequestsWholeGrams(step, p)
    ensures LinesInWholeGrams(Apply(b, step).stock.items, p) && MovesWholeGrams(b, step, p)
  {
    if Perform(b, step).Success? {
      if step.Selling? {
        var lines, k := CheckSale(b, step.user, step.counter, step.request).value.1, |b.cash.sales|;
        SaleItemsAreOf(lines, k);
        forall i <- ItemsOfSale(lines, k) | i.line.product == p
          ensures WholeGrams(i.line.quantity)
        {
          var j :| 0 <= j < |lines| && ItemsOfSale(lines, k)[j] == i;
          SoldInWholeGrams(b, step, p, lines[j]);
        }
        if SoldLine(b, step, p).Some? { SoldInWholeGrams(b, step, p, SoldLine(b, step, p).value); }
      } else if step.CancellingSale? {
        var none := (i: SaleItem) => 0;
        var zero := (e: StockMovement) => 0;
        Stock.ReturnSaleSum(b.stock, step.sale, |b.stock.items|, zero, none);
      }
    }
  }

  lemma {:induction false} RunInWholeGrams(steps: seq<Step>, n: nat, p: ProductId)
    requires n <= |steps| && forall step <- steps :: RequestsWholeGrams(step, p)
    ensures LinesInWholeGrams(Reached(steps[..n]).stock.items, p)
    ensures n < |steps| ==> MovesWholeGrams(Reached(steps[..n]), steps[n], p)
  {
    if n > 0 {
      RunInWholeGrams(steps, n - 1, p);
      assert steps[..n][..n - 1] == steps[..n - 1] && steps[n - 1] in steps;
      StepInWholeGrams(Reached(steps[..n - 1]), steps[n - 1], p);
    }
    if n < |steps| {
      assert steps[n] in steps;
      StepInWholeGrams(Reached(steps[..n]), steps[n], p);
    }
  }

  /** It is enough that every request about `p` is in whole grams. */
  lemma WholeGramRequestsReplay(steps: seq<Step>, p: ProductId)
    requires forall step <- steps :: LogsAllWaste(step) && RequestsWholeGrams(step, p)
    ensures LogTotal(Reached(steps).stock, p) == RowOf(Reached(steps).stock.inventory, p).current
  {
    forall n | 0 <= n < |steps|
      ensures LogsWhatItMoves(Reached(steps[..n]), steps[n], p)
    {
      RunInWholeGrams(steps, n, p);
      ReachedIsValid(steps[..n]);
      assert steps[n] in steps;
      StepKeepsLogGapExactlyWhen(Reached(steps[..n]), steps[n], p);
    }
    LogReplaysToStock(steps, p);
  }

  // ----- runs that part the accounts -----

  lemma ReachedOneMore(steps: seq<Step>, step: Step)
    ensures Reached(steps + [step]) == Apply(Reached(steps), step)
  {
    assert (steps + [step])[..|steps|] == steps;
  }

  lemma SumOfTwo(a: StockMovement, b: StockMovement, f: StockMovement -> int)
    ensures SumBy([a, b], f) == f(a) + f(b)
  {
    SumByAppend([], a, f);
    SumByAppend([a], b, f);
    assert [] + [a] == [a] && [a] + [b] == [a, b];
  }

  /** A product sold at three euros a gram. */
  function Tray(p: ProductId): Catalog {
    map[p := Product(ProductActive, true, 300)]
  }

  function Kilos(millionths: int): QuantityInput {
    QuantityInput(None, Some(millionths), None)
  }

  /** Four tenths of a gram are logged and leave the stock at zero. */
  lemma TenthsOfAGramPartThem(p: ProductId)
    ensures
      var stock := Reached([AddingStock(Tray(p), p, Kilos(400))]).stock;
      LogTotal(stock, p) == 400 && RowOf(stock.inventory, p).current == 0
  {
    ReachedOneMore([], AddingStock(Tray(p), p, Kilos(400)));
    var e := StockMovement(p, StockIn, 400, 0, 400, ByHand);
    SumByAppend([], e, Stock.Logged(p));
    assert [] + [e] == [e];
  }

  function HalfAGramWasted(p: ProductId): seq<Step> {
    [AddingStock(Tray(p), p, Kilos(1000)), WastingStock(Tray(p), p, Kilos(500))]
  }

  function OneGramLessAHalf(p: ProductId): StockBooks {
    StockBooks(map[p := Inventory(1000, 1000, 1000, 1000)],
               [StockMovement(p, StockIn, 1000, 0, 1000, ByHand), StockMovement(p, Waste, -500, 1000, 500, ByWaste)],
               [])
  }

  lemma HalfAGramBooks(p: ProductId)
    ensures Reached(HalfAGramWasted(p)).stock == OneGramLessAHalf(p)
  {
    var add, waste := HalfAGramWasted(p)[0], HalfAGramWasted(p)[1];
    ReachedOneMore([], add);
    ReachedOneMore([add], waste);
    assert [] + [add] == [add] && [add] + [waste] == HalfAGramWasted(p);
  }

  /** Half a gram wasted from one gram leaves one gram, of which one came in, one went out and one is lost. */
  lemma HalfAGramPartsTheCounters(p: ProductId)
    ensures
      var stock := Reached(HalfAGramWasted(p)).stock;
      && RowOf(stock.inventory, p) == Inventory(1000, 1000, 1000, 1000)
      && SumBy(stock.log, Stock.Returned(p)) == 0 && SumBy(stock.log, Stock.Wasted(p)) == 500
      && CounterGap(stock, p) == 1000 && LostGap(stock, p) == 500
  {
    HalfAGramBooks(p);
    var log := OneGramLessAHalf(p).log;
    SumOfTwo(log[0], log[1], Stock.Returned(p));
    SumOfTwo(log[0], log[1], Stock.Wasted(p));
  }

  // ----- a sale that is cancelled -----

  const LOGGING := SaleSettings(true, false, 1000, 0, Block, false, true)

  const TEN_GRAMS := Inventory(10_000, 10_000, 0, 0)

  /** Four euros' worth, 1.333 grams, weighed or not. */
  function FourEuros(p: ProductId, weighed: Option<int>): ItemRequest {
    ItemRequest(p, None, None, None, None, Some(400), weighed, true, false)
  }

  /** A gram and a half, not weighed. */
  function GramAndAHalf(p: ProductId): ItemRequest {
    ItemRequest(p, None, None, Some(1500), None, None, None, false, false)
  }

  function Sold(user: UserId, item: ItemRequest): Step {
    Selling(user, Counter(Tray(item.product), LOGGING, false),
            SaleRequest(MemberActive, [item], Tender(None, None, None, None, false)))
  }

  /** Ten grams in stock, the sale, and its cancellation. */
  function Stocked(user: UserId, p: ProductId): seq<Step> {
    [OpeningSession(user, 0), AddingStock(Tray(p), p, Kilos(10_000))]
  }

  function SoldAndCancelled(user: UserId, item: ItemRequest): seq<Step> {
    Stocked(user, item.product) + [Sold(user, item)] + [CancellingSale(0)]
  }

  /** What the item is sold as, paid in full. */
  predicate SellsAs(item: ItemRequest, line: Line) {
    && ResolveItem(Counter(Tray(item.product), LOGGING, false), item, Some(TEN_GRAMS)) == Success(line)
    && 0 < line.total
  }

  function FourEurosLine(p: ProductId, weighed: Option<int>): Line {
    Line(p, 1333, 400, ByAmount, Some(400),
         if weighed.Some? then Some(ScaleData(weighed.value, weighed.value - 1333, weighed.value - 1333, false, false))
         else None,
         10_000)
  }

  function GramAndAHalfLine(p: ProductId): Line {
    Line(p, 1500, 450, ByWeight, None, None, 10_000)
  }

  lemma FourEurosSell(p: ProductId, weighed: Option<int>)
    requires weighed in {None, Some(2000)}
    ensures SellsAs(FourEuros(p, weighed), FourEurosLine(p, weighed))
  {
    assert EurosToKg(400, 300) == 1333;
  }

  lemma GramAndAHalfSells(p: ProductId)
    ensures SellsAs(GramAndAHalf(p), GramAndAHalfLine(p))
  {
    assert KgToEuros(1500, 300) == 450;
  }

  function PaidInFull(total: nat): Settlement {
    Settlement(total, 0, total, total, total, 0, 0, Paid, Standard)
  }

  function TenGramsIn(p: ProductId): StockMovement {
    StockMovement(p, StockIn, 10_000, 0, 10_000, ByHand)
  }

  function TenGramsOf(p: ProductId): StockBooks {
    StockBooks(map[p := TEN_GRAMS], [TenGramsIn(p)], [])
  }

  lemma StockedBooks(user: UserId, p: ProductId)
    ensures
      var b := Reached(Stocked(user, p));
      b.cash == EMPTY_CASH.(sessions := [Session(user, 0, Open, None)]) && b.stock == TenGramsOf(p)
  {
    var opening, adding := Stocked(user, p)[0], Stocked(user, p)[1];
    ReachedOneMore([], opening);
    ReachedOneMore([opening], adding);
    assert [] + [opening] == [opening] && [opening] + [adding] == Stocked(user, p);
    assert Reached([opening]).cash.sessions == [Session(user, 0, Open, None)];
  }

  lemma OneItemResolved(item: ItemRequest, line: Line, inventory: map<ProductId, Inventory>)
    requires SellsAs(item, line) && Lookup(inventory, item.product) == Some(TEN_GRAMS)
    ensures ResolveItems(inventory, At(Counter(Tray(item.product), LOGGING, false)), [item]) == Success([line])
    ensures SumBy([line], LineTotal) == line.total
  {
    var resolve := At(Counter(Tray(item.product), LOGGING, false));
    assert [item][..0] == [] && [] + [line] == [line];
    assert ResolveItems(inventory, resolve, []) == Success([]);
    assert resolve(item, Some(TEN_GRAMS)) == Success(line);
    SumByAppend([], line, LineTotal);
  }

  lemma OneItemChecked(b: Books, user: UserId, item: ItemRequest, line: Line)
    requires SellsAs(item, line) && Lookup(b.stock.inventory, item.product) == Some(TEN_GRAMS)
    requires b.cash.sessions == [Session(user, 0, Open, None)]
    ensures
      var sale := Sold(user, item);
      CheckSale(b, user, sale.counter, sale.request) == Success((0, [line], PaidInFull(line.total)))
  {
    OneItemResolved(item, line, b.stock.inventory);
    assert b.cash.sessions[0] == Session(user, 0, Open, None);
    assert Settle(line.total, Sold(user, item).request.tender) == Success(PaidInFull(line.total));
  }

  lemma SoldBooks(user: UserId, item: ItemRequest, line: Line)
    requires SellsAs(item, line)
    ensures
      var b, sale := Reached(Stocked(user, item.product)), Sold(user, item);
      && Perform(b, sale).Success? && SoldLine(b, sale, item.product) == Some(line)
      && Apply(b, sale) == Posted(b, 0, [line], PaidInFull(line.total), true)
      && Reached(Stocked(user, item.product) + [sale]) == Apply(b, sale)
  {
    StockedBooks(user, item.product);
    OneItemChecked(Reached(Stocked(user, item.product)), user, item, line);
    ReachedOneMore(Stocked(user, item.product), Sold(user, item));
  }

  lemma SumOfSale(first: StockMovement, line: Line, f: StockMovement -> int)
    ensures SumBy([first] + LineEntries(line, true), f)
         == f(first) + f(SaleEntry(line)) + if line.WasteQuantity() > 0 then f(ScaleWasteEntry(line)) else 0
  {
    Stock.LineEntriesSum(line, true, f);
    SumByAppend([], first, f);
    assert [] + [first] == [first];
    SumByConcat([first], LineEntries(line, true), f);
  }

  lemma OneLineSold(stock: StockBooks, line: Line)
    requires line.product in stock.inventory
    ensures
      var sold := PostLines(stock, 0, [line], true);
      && sold.log == stock.log + LineEntries(line, true) && sold.items == stock.items + [SaleItem(0, line)]
      && sold.inventory == stock.inventory[line.product := SoldRow(stock.inventory[line.product], line)]
  {
    var lines := [line];
    assert lines[..0] == [];
    assert SaleEntries(lines, true) == LineEntries(line, true);
    assert ItemsOfSale(lines, 0) == [SaleItem(0, line)];
  }

  lemma OneLineSays(stock: StockBooks, first: StockMovement, line: Line)
    requires stock.log == [first] && first.product == line.product && line.product in stock.inventory
    ensures
      var sold, p := PostLines(stock, 0, [line], true), line.product;
      && LogTotal(sold, p)
         == first.quantity - line.quantity - (if line.WasteQuantity() > 0 then line.WasteQuantity() else 0)
      && RowOf(sold.inventory, p).current == Column(line.previous - line.StockQuantity())
  {
    OneLineSold(stock, line);
    SumOfSale(first, line, Stock.Logged(line.product));
  }

  /** Weighed at two grams, the sale leaves log and stock in step. */
  lemma SoldInStep(user: UserId, p: ProductId)
    ensures LogGap(Reached(Stocked(user, p) + [Sold(user, FourEuros(p, Some(2000)))]).stock, p) == 0
  {
    var line := FourEurosLine(p, Some(2000));
    StockedBooks(user, p);
    FourEurosSell(p, Some(2000));
    SoldBooks(user, FourEuros(p, Some(2000)), line);
    OneLineSays(TenGramsOf(p), TenGramsIn(p), line);
    assert Column(8000) == 8000;
  }

  /** One line sold and given back. */
  lemma OneLineThereAndBack(stock: StockBooks, line: Line)
    requires stock.items == [] && line.product in stock.inventory
    ensures
      var sold, p := SoldRow(stock.inventory[line.product], line), line.product;
      var after := ReturnSale(PostLines(stock, 0, [line], true), 0, 1);
      && |PostLines(stock, 0, [line], true).items| == 1
      && after.log == stock.log + LineEntries(line, true) + [ReturnEntry(0, line)]
      && RowOf(after.inventory, p) == sold.(current := Column(sold.current + line.quantity))
  {
    var sold := PostLines(stock, 0, [line], true);
    OneLineSold(stock, line);
    assert ReturnSale(sold, 0, 0) == sold;
  }

  /** What the log and the row say after the cancellation. */
  lemma CancelledStock(user: UserId, item: ItemRequest, line: Line)
    requires SellsAs(item, line)
    ensures
      var stock, sold := Reached(SoldAndCancelled(user, item)).stock, SoldRow(TEN_GRAMS, line);
      && stock.log == [TenGramsIn(item.product)] + LineEntries(line, true) + [ReturnEntry(0, line)]
      && RowOf(stock.inventory, item.product) == sold.(current := Column(sold.current + line.quantity))
  {
    CancelledBooks(user, item, line);
    OneLineThereAndBack(TenGramsOf(item.product), line);
  }

  lemma CancelledBooks(user: UserId, item: ItemRequest, line: Line)
    requires SellsAs(item, line)
    ensures |PostLines(TenGramsOf(item.product), 0, [line], true).items| == 1
    ensures
      var before := Reached(Stocked(user, item.product) + [Sold(user, item)]);
      && CancelSale(before, 0).Success? && Reached(SoldAndCancelled(user, item)) == Apply(before, CancellingSale(0))
      && Reached(SoldAndCancelled(user, item)).stock
         == ReturnSale(PostLines(TenGramsOf(item.product), 0, [line], true), 0, 1)
  {
    var before := Stocked(user, item.product) + [Sold(user, item)];
    StockedBooks(user, item.product);
    SoldBooks(user, item, line);
    OneLineSold(TenGramsOf(item.product), line);
    ReachedOneMore(before, CancellingSale(0));
    FirstSaleCancelled(Reached(before));
  }

  lemma FirstSaleCancelled(b: Books)
    requires |b.cash.sales| == 1 && b.cash.sales[0].status == Completed && |b.stock.items| == 1
    ensures CancelSale(b, 0).Success? && Apply(b, CancellingSale(0)).stock == ReturnSale(b.stock, 0, 1)
  {
  }

  /** The cancellation does not: the log then says 9.333 grams and the stock nine. */
  lemma CancellingPartsThem(user: UserId, p: ProductId)
    ensures LogGap(Reached(Stocked(user, p) + [Sold(user, FourEuros(p, Some(2000)))]).stock, p) == 0
    ensures
      var stock := Reached(SoldAndCancelled(user, FourEuros(p, Some(2000)))).stock;
      LogTotal(stock, p) == 9333 && RowOf(stock.inventory, p).current == 9000
  {
    var line, f := FourEurosLine(p, Some(2000)), Stock.Logged(p);
    SoldInStep(user, p);
    FourEurosSell(p, Some(2000));
    CancelledStock(user, FourEuros(p, Some(2000)), line);
    SumOfSale(TenGramsIn(p), line, f);
    SumByAppend([TenGramsIn(p)] + LineEntries(line, true), ReturnEntry(0, line), f);
  }

  /**
   Not weighed: all ten grams are there again, one went out and 1.333 grams came back, so the counters and the logged
   returns say 10.333. Nothing ever ended in half a gram.
   */
  lemma CancellingPartsTheCounters(user: UserId, p: ProductId)
    ensures
      var stock := Reached(SoldAndCancelled(user, FourEuros(p, None))).stock;
      && RowOf(stock.inventory, p) == Inventory(10_000, 10_000, 1000, 0)
      && SumBy(stock.log, Stock.Returned(p)) == 1333 && CounterGap(stock, p) == -333
  {
    var line, f := FourEurosLine(p, None), Stock.Returned(p);
    FourEurosSell(p, None);
    CancelledStock(user, FourEuros(p, None), line);
    SumOfSale(TenGramsIn(p), line, f);
    SumByAppend([TenGramsIn(p)] + LineEntries(line, true), ReturnEntry(0, line), f);
  }

  lemma CurrentSoldAs(user: UserId, item: ItemRequest, line: Line)
    requires SellsAs(item, line)
    ensures
      var p := item.product;
      && Current(Reached(Stocked(user, p)), p) == 10_000
      && Perform(Reached(Stocked(user, p)), Sold(user, item)).Success?
      && Current(Reached(Stocked(user, p) + [Sold(user, item)]), p) == Column(10_000 - line.StockQuantity())
  {
    StockedBooks(user, item.product);
    SoldBooks(user, item, line);
    SoldRowAlone(Reached(Stocked(user, item.product)), PaidInFull(line.total), line);
  }

  lemma SoldRowAlone(b: Books, st: Settlement, line: Line)
    requires line.product in b.stock.inventory
    ensures Current(Posted(b, 0, [line], st, true), line.product) == Column(line.previous - line.StockQuantity())
  {
    assert [line][..0] == [];
  }

  lemma CurrentCancelled(user: UserId, item: ItemRequest, line: Line)
    requires SellsAs(item, line)
    ensures Current(Reached(SoldAndCancelled(user, item)), item.product)
         == Column(Column(10_000 - line.StockQuantity()) + line.quantity)
  {
    CancelledStock(user, item, line);
  }

  /** What is there before a sale, after it and after its cancellation. */
  predicate StockGoes(user: UserId, item: ItemRequest, before: int, sold: int, after: int) {
    var p := item.product;
    && Current(Reached(Stocked(user, p)), p) == before
    && Perform(Reached(Stocked(user, p)), Sold(user, item)).Success?
    && Current(Reached(Stocked(user, p) + [Sold(user, item)]), p) == sold
    && Current(Reached(SoldAndCancelled(user, item)), p) == after
  }

  lemma StockThereAndBack(user: UserId, item: ItemRequest, line: Line)
    requires SellsAs(item, line)
    ensures
      var sold := Column(10_000 - line.StockQuantity());
      StockGoes(user, item, 10_000, sold, Column(sold + line.quantity))
  {
    CurrentSoldAs(user, item, line);
    CurrentCancelled(user, item, line);
  }

  /** A gram and a half of ten grams, not weighed: sold and cancelled, eleven grams are there. */
  lemma CancellingMakesAGram(user: UserId, p: ProductId)
    ensures StockGoes(user, GramAndAHalf(p), 10_000, 9000, 11_000)
  {
    GramAndAHalfSells(p);
    StockThereAndBack(user, GramAndAHalf(p), GramAndAHalfLine(p));
    assert Column(8500) == 9000 && Column(10_500) == 11_000;
  }
}
