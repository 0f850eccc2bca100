/**
 What each step does to the stock of one product, and which steps keep its three accounts in step: the
 log, the counters and the lost quantity.
 */
module StockChanges {
  import opened Prelude
  import opened CashLedger
  import opened Quantity
  import opened StockLedger
  import opened Club
  import opened ClubInvariants
  import opened StockReplay

  // ----- the line of a sale for a product -----

  function LineOf(items: seq<SaleItem>, k: nat, p: ProductId): (r: Option<Line>)
    ensures r.Some? ==> SaleItem(k, r.value) in items && r.value.product == p
    ensures r.None? ==> forall i <- items :: i.sale != k || i.line.product != p
  {
    if items == [] then None
    else
      var last := items[|items| - 1];
      if last.sale == k && last.line.product == p then Some(last.line) else LineOf(items[..|items| - 1], k, p)
  }

  /** A total over the line of sale `k` for `p` is what that one line weighs. */
  lemma {:induction false} OneLineSum(items: seq<SaleItem>, k: nat, p: ProductId, g: SaleItem -> int)
    requires OneLinePerProduct(items)
    requires forall i: SaleItem :: i.sale != k || i.line.product != p ==> g(i) == 0
    ensures SumBy(items, g) == if LineOf(items, k, p).Some? then g(SaleItem(k, LineOf(items, k, p).value)) else 0
  {
    if items != [] {
      var init, last := items[..|items| - 1], items[|items| - 1];
      OneLineSum(init, k, p, g);
      if last.sale == k && last.line.product == p {
        forall i <- init
          ensures i.sale != k || i.line.product != p
        {
          var j :| 0 <= j < |init| && init[j] == i;
          assert items[j] == i;
        }
        assert LineOf(init, k, p) == None;
      }
    }
  }

  // ----- what a step adds to a total over the log and the lines -----

  /** Totals about `p` that look at entries written by themselves and at sale lines. */
  ghost predicate About(p: ProductId, f: StockMovement -> int, g: SaleItem -> int) {
    && (forall e: StockMovement :: e.product != p || e.source == BySale || e.source == ByScale ==> f(e) == 0)
    && (forall i: SaleItem :: i.line.product != p ==> g(i) == 0)
  }

  function Account(b: StockBooks, f: StockMovement -> int, g: SaleItem -> int): int {
    SumBy(b.log, f) + SumBy(b.items, g)
  }

  /** The quantity that a stock operation takes from its request. */
  function InputQuantity(step: Step): int
    requires IsStockOnly(step)
  {
    var given := RawQuantity(step.product in step.catalog && step.catalog[step.product].isBulk, step.input);
    if given.Some? then given.value else 0
  }

  /** The log entry of an accepted stock operation. */
  function EntryOf(b: Books, step: Step): StockMovement
    requires IsStockOnly(step)
  {
    var p, quantity, current := step.product, InputQuantity(step), RowOf(b.stock.inventory, step.product).current;
    if step.AddingStock? then StockMovement(p, StockIn, quantity, current, current + quantity, ByHand)
    else if step.AdjustingStock? then StockMovement(p, Adjustment, quantity - current, current, quantity, ByAdjustment)
    else StockMovement(p, Waste, -quantity, current, current - quantity, ByWaste)
  }

  lemma StockOnlyLogs(b: Books, step: Step)
    requires IsStockOnly(step) && Perform(b, step).Success?
    ensures
      var stock, stock' := b.stock, Apply(b, step).stock;
      stock'.log == stock.log + [EntryOf(b, step)] && stock'.items == stock.items && 0 <= InputQuantity(step)
  {
  }

  lemma CashOnlyLeavesStock(b: Books, step: Step)
    requires !IsStockOnly(step) && !step.Selling? && !step.CancellingSale?
    ensures Apply(b, step).stock == b.stock
  {
  }

  function SoldLine(b: Books, step: Step, p: ProductId): Option<Line>
    requires step.Selling?
  {
    match CheckSale(b, step.user, step.counter, step.request)
    case Success((_, lines, _)) => LineFor(lines, p)
    case Failure(_) => None
  }

  /** What a step adds to such a total: the weight of its one entry or its one line for `p`. */
  function Added(b: Books, step: Step, p: ProductId, f: StockMovement -> int, g: SaleItem -> int): int {
    if Perform(b, step).Failure? then 0
    else if step.Selling? then
      var line := SoldLine(b, step, p);
      if line.Some? then g(SaleItem(|b.cash.sales|, line.value)) else 0
    else if step.CancellingSale? then
      var line := LineOf(b.stock.items, step.sale, p);
      if line.Some? then f(ReturnEntry(step.sale, line.value)) else 0
    else if IsStockOnly(step) then f(EntryOf(b, step))
    else 0
  }

  lemma SellingAdds(b: Books, step: Step, p: ProductId, f: StockMovement -> int, g: SaleItem -> int)
    requires Valid(b) && About(p, f, g) && step.Selling? && Perform(b, step).Success?
    ensures Account(Apply(b, step).stock, f, g) == Account(b.stock, f, g) + Added(b, step, p, f, g)
  {
    AcceptedSale(b, step.user, step.counter, step.request);
    var lines, k := CheckSale(b, step.user, step.counter, step.request).value.1, |b.cash.sales|;
    var entries := SaleEntries(lines, step.counter.settings.autoRegisterWaste);
    Stock.SaleEntriesZero(lines, step.counter.settings.autoRegisterWaste, f);
    Stock.SaleItemsSum(lines, k, p, g);
    SumByConcat(b.stock.log, entries, f);
    SumByConcat(b.stock.items, ItemsOfSale(lines, k), g);
  }

  lemma CancellingAdds(b: Books, k: nat, p: ProductId, f: StockMovement -> int, g: SaleItem -> int)
    requires Valid(b) && About(p, f, g) && CancelSale(b, k).Success?
    ensures Account(Apply(b, CancellingSale(k)).stock, f, g)
            == Account(b.stock, f, g) + Added(b, CancellingSale(k), p, f, g)
  {
    var back := (i: SaleItem) => if i.sale == k then f(ReturnEntry(k, i.line)) else 0;
    Stock.ReturnSaleSum(b.stock, k, |b.stock.items|, f, back);
    assert b.stock.items[..|b.stock.items|] == b.stock.items;
    OneLineSum(b.stock.items, k, p, back);
  }

  lemma StepAdds(b: Books, step: Step, p: ProductId, f: StockMovement -> int, g: SaleItem -> int)
    requires Valid(b) && About(p, f, g)
    ensures Account(Apply(b, step).stock, f, g) == Account(b.stock, f, g) + Added(b, step, p, f, g)
  {
    if Perform(b, step).Success? {
      if step.Selling? {
        SellingAdds(b, step, p, f, g);
      } else if step.CancellingSale? {
        CancellingAdds(b, step.sale, p, f, g);
      } else if IsStockOnly(step) {
        StockOnlyLogs(b, step);
        SumByAppend(b.stock.log, EntryOf(b, step), f);
      } else {
        CashOnlyLeavesStock(b, step);
      }
    }
  }

  // ----- the log -----

  /** Every sale is made with waste logged automatically and under-weight lines refused. */
  predicate LogsAllWaste(step: Step) {
    step.Selling? ==> step.counter.settings.autoRegisterWaste && !step.counter.settings.allowUnderWeight
  }

  /** The line was weighed at what it asked for, or at more with waste logged automatically. */
  predicate SurplusLogged(line: Line, autoWaste: bool) {
    line.Overweight() == 0 || (0 < line.Overweight() && autoWaste)
  }

  /** A sale logs what it weighed of `p` beyond the request, or below it. */
  predicate LogsItsSurplus(b: Books, step: Step, p: ProductId) {
    step.Selling? && Perform(b, step).Success? && SoldLine(b, step, p).Some? ==>
      SurplusLogged(SoldLine(b, step, p).value, step.counter.settings.autoRegisterWaste)
  }

  /** What the log shows as waste of the sale of `p`. */
  function WasteShown(line: Option<Line>, autoWaste: bool): int {
    if line.Some? && autoWaste && 0 < line.value.WasteQuantity() then line.value.WasteQuantity() else 0
  }

  lemma {:induction false} SaleWasteShown(lines: seq<Line>, autoWaste: bool, p: ProductId)
    requires Stock.DistinctLines(lines)
    ensures SumBy(SaleEntries(lines, autoWaste), Stock.ScaleWasteLogged(p)) == WasteShown(LineFor(lines, p), autoWaste)
  {
    if lines != [] {
      var init, last := lines[..|lines| - 1], lines[|lines| - 1];
      SaleWasteShown(init, autoWaste, p);
      SumByConcat(SaleEntries(init, autoWaste), LineEntries(last, autoWaste), Stock.ScaleWasteLogged(p));
      Stock.LineEntriesSum(last, autoWaste, Stock.ScaleWasteLogged(p));
    }
  }

  function SurplusAdded(line: Option<Line>, autoWaste: bool): int {
    (if line.Some? then line.value.Overweight() else 0) - WasteShown(line, autoWaste)
  }

  lemma SellingAddsSurplus(b: Books, user: UserId, c: Counter, request: SaleRequest, p: ProductId)
    requires Valid(b) && CreateSale(b, user, c, request).Success?
    ensures
      var line := LineFor(CheckSale(b, user, c, request).value.1, p);
      UnloggedSurplus(CreateSale(b, user, c, request).value.stock, p)
      == UnloggedSurplus(b.stock, p) + SurplusAdded(line, c.settings.autoRegisterWaste)
  {
    AcceptedSale(b, user, c, request);
    var lines, k, auto := CheckSale(b, user, c, request).value.1, |b.cash.sales|, c.settings.autoRegisterWaste;
    SaleWasteShown(lines, auto, p);
    Stock.SaleItemsSum(lines, k, p, Stock.Overweights(p));
    SumByConcat(b.stock.items, ItemsOfSale(lines, k), Stock.Overweights(p));
    SumByConcat(b.stock.log, SaleEntries(lines, auto), Stock.ScaleWasteLogged(p));
  }

  lemma CancellingLogsNoWaste(b: StockBooks, k: nat, p: ProductId)
    ensures UnloggedSurplus(ReturnSale(b, k, |b.items|), p) == UnloggedSurplus(b, p)
  {
    var none := (i: SaleItem) => 0;
    Stock.ReturnSaleSum(b, k, |b.items|, Stock.ScaleWasteLogged(p), none);
    SumByZero(b.items[..|b.items|], none);
  }

  /** The unlogged surplus of `p` stays as it is exactly when a sale's line for it was logged as weighed. */
  lemma StepLogsItsSurplusExactlyWhen(b: Books, step: Step, p: ProductId)
    requires Valid(b)
    ensures UnloggedSurplus(Apply(b, step).stock, p) == UnloggedSurplus(b.stock, p) <==> LogsItsSurplus(b, step, p)
  {
    if Perform(b, step).Success? {
      if step.Selling? {
        SellingAddsSurplus(b, step.user, step.counter, step.request, p);
        SoldLineResolved(b, step, p);
      } else if step.CancellingSale? {
        CancellingLogsNoWaste(b.stock, step.sale, p);
      } else if IsStockOnly(step) {
        StockOnlyLogs(b, step);
        SumByAppend(b.stock.log, EntryOf(b, step), Stock.ScaleWasteLogged(p));
      } else {
        CashOnlyLeavesStock(b, step);
      }
    }
  }

  lemma SoldLineResolved(b: Books, step: Step, p: ProductId)
    requires Valid(b) && step.Selling? && Perform(b, step).Success?
    ensures
      var line := SoldLine(b, step, p);
      line.Some? ==>
        && line.value.WasteQuantity() == Max(line.value.Overweight(), 0)
        && (LogsAllWaste(step) ==> 0 <= line.value.Overweight())
  {
    AcceptedSale(b, step.user, step.counter, step.request);
  }

  /** With waste registered and under-weight refused every sale logs its surplus. */
  lemma StepLogsItsWaste(b: Books, step: Step, p: ProductId)
    requires Valid(b) && LogsAllWaste(step)
    ensures LogsItsSurplus(b, step, p)
    ensures UnloggedSurplus(Apply(b, step).stock, p) == UnloggedSurplus(b.stock, p)
  {
    if step.Selling? && Perform(b, step).Success? {
      SoldLineResolved(b, step, p);
    }
    StepLogsItsSurplusExactlyWhen(b, step, p);
  }

  /** The quantity that the step moves of `p` is in whole grams, or it moves none. */
  predicate MovesWholeGrams(b: Books, step: Step, p: ProductId) {
    Perform(b, step).Success? ==>
      if step.Selling? then SoldLine(b, step, p).Some? ==> WholeGrams(SoldLine(b, step, p).value.StockQuantity())
      else if step.CancellingSale? then
        LineOf(b.stock.items, step.sale, p).Some? ==> WholeGrams(LineOf(b.stock.items, step.sale, p).value.quantity)
      else IsStockOnly(step) && step.product == p ==> WholeGrams(InputQuantity(step))
  }

  /** Log minus stock, less the weighed surplus that the log does not show: what is then left over was rounded away. */
  function UnexplainedGap(b: StockBooks, p: ProductId): int {
    LogGap(b, p) - UnloggedSurplus(b, p)
  }

  lemma StepAddsResidue(b: Books, step: Step, p: ProductId)
    requires Valid(b)
    ensures UnexplainedGap(Apply(b, step).stock, p)
         == UnexplainedGap(b.stock, p) + Added(b, step, p, EntryResidue(p), LineResidue(p))
  {
    StepKeepsValid(b, step);
    LogAgainstStock(b.stock, p);
    LogAgainstStock(Apply(b, step).stock, p);
    StepAdds(b, step, p, EntryResidue(p), LineResidue(p));
  }

  /** Under any settings, a step adds nothing unexplained exactly when it moves whole grams of `p`, or none. */
  lemma StepIsExplainedExactlyWhen(b: Books, step: Step, p: ProductId)
    requires Valid(b)
    ensures UnexplainedGap(Apply(b, step).stock, p) == UnexplainedGap(b.stock, p) <==> MovesWholeGrams(b, step, p)
  {
    StepAddsResidue(b, step, p);
    AddedResidue(b, step, p);
  }

  /** A sale's line for `p` logs what it takes, rounded to grams; whatever else moves `p` moves whole grams. */
  predicate LogsWhatItMoves(b: Books, step: Step, p: ProductId) {
    if step.Selling? then
      Perform(b, step).Success? && SoldLine(b, step, p).Some? ==>
        var line := SoldLine(b, step, p).value;
        line.quantity + WasteShown(Some(line), step.counter.settings.autoRegisterWaste)
          == -Effect(-line.StockQuantity())
    else MovesWholeGrams(b, step, p)
  }

  /**
   Log and stock of `p` move alike exactly when the step logs what it moves: where a sale logs its surplus, as it does
   with waste registered and under-weight refused, exactly when it moves whole grams.
   */
  lemma StepKeepsLogGapExactlyWhen(b: Books, step: Step, p: ProductId)
    requires Valid(b)
    ensures LogGap(Apply(b, step).stock, p) == LogGap(b.stock, p) <==> LogsWhatItMoves(b, step, p)
    ensures LogsItsSurplus(b, step, p) ==> (LogsWhatItMoves(b, step, p) <==> MovesWholeGrams(b, step, p))
    ensures LogsAllWaste(step) ==> LogsItsSurplus(b, step, p)
  {
    StepIsExplainedExactlyWhen(b, step, p);
    StepLogsItsSurplusExactlyWhen(b, step, p);
    if LogsAllWaste(step) {
      StepLogsItsWaste(b, step, p);
    }
    if step.Selling? && Perform(b, step).Success? {
      SellingMovesGap(b, step, p);
    }
  }

  lemma SellingMovesGap(b: Books, step: Step, p: ProductId)
    requires Valid(b) && step.Selling? && Perform(b, step).Success?
    ensures LogGap(Apply(b, step).stock, p) == LogGap(b.stock, p) <==> LogsWhatItMoves(b, step, p)
  {
    StepAddsResidue(b, step, p);
    SellingAddsSurplus(b, step.user, step.counter, step.request, p);
    SoldLineIs(b, step, p);
  }

  lemma AddedResidue(b: Books, step: Step, p: ProductId)
    requires Valid(b)
    ensures Added(b, step, p, EntryResidue(p), LineResidue(p)) == 0 <==> MovesWholeGrams(b, step, p)
  {
    if Perform(b, step).Success? {
      if step.Selling? {
        if SoldLine(b, step, p).Some? { ResidueOfLine(|b.cash.sales|, SoldLine(b, step, p).value, p); }
      } else if step.CancellingSale? {
        var line := LineOf(b.stock.items, step.sale, p);
        if line.Some? { ResidueOfReturn(step.sale, line.value, p); }
      } else if IsStockOnly(step) {
        EntryOfResidue(b, step, p);
      }
    }
  }

  lemma ResidueOfLine(k: nat, line: Line, p: ProductId)
    requires line.product == p
    ensures LineResidue(p)(SaleItem(k, line)) == 0 <==> WholeGrams(line.StockQuantity())
  {
    WholeGramsExactly(-line.StockQuantity());
  }

  lemma ResidueOfReturn(k: nat, line: Line, p: ProductId)
    requires line.product == p
    ensures EntryResidue(p)(ReturnEntry(k, line)) == 0 <==> WholeGrams(line.quantity)
  {
    WholeGramsExactly(line.quantity);
  }

  lemma EntryOfResidue(b: Books, step: Step, p: ProductId)
    requires Valid(b) && IsStockOnly(step)
    ensures EntryResidue(p)(EntryOf(b, step)) == 0 <==> (step.product == p ==> WholeGrams(InputQuantity(step)))
  {
    assert Stock.RowExact(b.stock, step.product);
    WholeGramsExactly(EntryOf(b, step).quantity);
    GramsOfDifference(InputQuantity(step), RowOf(b.stock.inventory, step.product).current);
  }

  // ----- the counters -----

  /** Nothing that the step takes of `p` ends in half a gram, and nothing that it gives back is a fraction of grams. */
  predicate CountsExactly(b: Books, step: Step, p: ProductId) {
    Perform(b, step).Success? ==>
      if step.Selling? then SoldLine(b, step, p).Some? ==> !IsTie(SoldLine(b, step, p).value.StockQuantity())
      else if step.CancellingSale? then
        LineOf(b.stock.items, step.sale, p).Some? ==> WholeGrams(LineOf(b.stock.items, step.sale, p).value.quantity)
      else IsStockOnly(step) && step.product == p && TakesStock(b, step) ==> !IsTie(InputQuantity(step))
  }

  /** A waste, or an adjustment to less than there is. */
  predicate TakesStock(b: Books, step: Step)
    requires IsStockOnly(step)
  {
    step.WastingStock? || (step.AdjustingStock? && InputQuantity(step) < RowOf(b.stock.inventory, step.product).current)
  }

  lemma StepKeepsCounterGapExactlyWhen(b: Books, step: Step, p: ProductId)
    requires Valid(b)
    ensures CounterGap(Apply(b, step).stock, p) == CounterGap(b.stock, p) <==> CountsExactly(b, step, p)
  {
    StepKeepsValid(b, step);
    CountersAgainstStock(b.stock, p);
    CountersAgainstStock(Apply(b, step).stock, p);
    StepAdds(b, step, p, CounterRounding(p), LineTie(p));
    AddedTies(b, step, p);
  }

  lemma AddedTies(b: Books, step: Step, p: ProductId)
    requires Valid(b)
    ensures Added(b, step, p, CounterRounding(p), LineTie(p)) == 0 <==> CountsExactly(b, step, p)
  {
    if Perform(b, step).Success? {
      if step.CancellingSale? {
        if LineOf(b.stock.items, step.sale, p).Some? {
          var line := LineOf(b.stock.items, step.sale, p).value;
          assert SaleItem(step.sale, line) in b.stock.items && Stock.LineExact(line);
          WholeGramsExactly(line.quantity);
        }
      } else if IsStockOnly(step) {
        StockOnlyLogs(b, step);
        EntryOfTies(b, step, p);
      }
    }
  }

  lemma EntryOfTies(b: Books, step: Step, p: ProductId)
    requires Valid(b) && IsStockOnly(step) && 0 <= InputQuantity(step)
    ensures CounterRounding(p)(EntryOf(b, step)) == 0 <==>
            (step.product == p && TakesStock(b, step) ==> !IsTie(InputQuantity(step)))
  {
    assert Stock.RowExact(b.stock, step.product);
    GramsOfDifference(InputQuantity(step), RowOf(b.stock.inventory, step.product).current);
  }

  // ----- the lost quantity -----

  /** A waste of `p` is in whole grams. */
  predicate WastesWholeGrams(b: Books, step: Step, p: ProductId) {
    Perform(b, step).Success? && step.WastingStock? && step.product == p ==> WholeGrams(InputQuantity(step))
  }

  lemma StepKeepsLostGapExactlyWhen(b: Books, step: Step, p: ProductId)
    requires Valid(b)
    ensures LostGap(Apply(b, step).stock, p) == LostGap(b.stock, p) <==> WastesWholeGrams(b, step, p)
  {
    var none := (i: SaleItem) => 0;
    StepKeepsValid(b, step);
    LostAgainstWaste(b.stock, p);
    LostAgainstWaste(Apply(b, step).stock, p);
    SumByZero(b.stock.items, none);
    SumByZero(Apply(b, step).stock.items, none);
    StepAdds(b, step, p, WasteRounding(p), none);
    AddedWaste(b, step, p, none);
  }

  lemma AddedWaste(b: Books, step: Step, p: ProductId, none: SaleItem -> int)
    requires forall i: SaleItem :: none(i) == 0
    ensures Added(b, step, p, WasteRounding(p), none) == 0 <==> WastesWholeGrams(b, step, p)
  {
    if Perform(b, step).Success? && IsStockOnly(step) {
      StockOnlyLogs(b, step);
      WholeGramsExactly(InputQuantity(step));
    }
  }

  // ----- the stock itself -----

  function Current(b: Books, p: ProductId): int {
    RowOf(b.stock.inventory, p).current
  }

  /** What a sale's line takes from the stock, and what its cancellation gives back, rounded to grams. */
  function TakenOf(line: Option<Line>): int {
    if line.Some? then Effect(-line.value.StockQuantity()) else 0
  }

  function GivenBack(line: Option<Line>): int {
    if line.Some? then Effect(line.value.quantity) else 0
  }

  /** A sale takes from the stock of `p` what its line takes, rounded to grams, and counts it as gone out. */
  lemma SellingTakes(b: Books, user: UserId, c: Counter, request: SaleRequest, p: ProductId)
    requires Valid(b) && CheckSale(b, user, c, request).Success?
    ensures RowOf(Apply(b, Selling(user, c, request)).stock.inventory, p)
         == Stock.RowTaken(RowOf(b.stock.inventory, p), LineFor(CheckSale(b, user, c, request).value.1, p))
  {
    AcceptedSale(b, user, c, request);
    assert Stock.RowExact(b.stock, p);
    Stock.SoldRowIs(b.stock.inventory, CheckSale(b, user, c, request).value.1, p);
  }

  lemma {:induction false} ReturnSaleStock(b: StockBooks, k: nat, n: nat, p: ProductId)
    requires Stock.Valid(b) && n <= |b.items|
    ensures
      var row := RowOf(b.inventory, p);
      RowOf(ReturnSale(b, k, n).inventory, p) == row.(current := row.current + SumBy(b.items[..n], RequestedBy(k, p)))
    decreases n
  {
    if n > 0 {
      var item := b.items[n - 1];
      ReturnSaleStock(b, k, n - 1, p);
      Stock.ReturnSaleKeeps(b, k, n - 1);
      assert b.items[..n] == b.items[..n - 1] + [item];
      SumByAppend(b.items[..n - 1], item, RequestedBy(k, p));
      assert item in b.items;
      if item.sale == k { ReturnItemStock(ReturnSale(b, k, n - 1), k, item, p); }
    }
  }

  lemma ReturnItemStock(b: StockBooks, k: nat, item: SaleItem, p: ProductId)
    requires Stock.Valid(b) && Stock.LineExact(item.line) && item.sale == k && item.line.product in b.inventory
    ensures
      var row := RowOf(b.inventory, p);
      RowOf(ReturnItem(b, k, item).inventory, p) == row.(current := row.current + RequestedBy(k, p)(item))
  {
    assert Stock.RowExact(b, p);
    Stock.RowWrites(RowOf(b.inventory, p), item.line.quantity);
  }

  /** A cancellation gives back the requested quantity of the sale's line, rounded to grams, and moves no counter. */
  lemma CancellingReturns(b: Books, k: nat, p: ProductId)
    requires Valid(b) && CancelSale(b, k).Success?
    ensures
      var line, row := LineOf(b.stock.items, k, p), RowOf(b.stock.inventory, p);
      RowOf(Apply(b, CancellingSale(k)).stock.inventory, p)
      == match line
         case None => row
         case Some(l) => row.(current := row.current + Effect(l.quantity))
  {
    ReturnSaleStock(b.stock, k, |b.stock.items|, p);
    assert b.stock.items[..|b.stock.items|] == b.stock.items;
    OneLineSum(b.stock.items, k, p, RequestedBy(k, p));
  }

  lemma SoldLineIs(b: Books, step: Step, p: ProductId)
    requires step.Selling? && Perform(b, step).Success?
    ensures CheckSale(b, step.user, step.counter, step.request).Success?
    ensures SoldLine(b, step, p) == LineFor(CheckSale(b, step.user, step.counter, step.request).value.1, p)
  {
  }

  lemma CurrentTaken(row: Inventory, line: Option<Line>)
    ensures Stock.RowTaken(row, line).current == row.current + TakenOf(line)
  {
  }

  lemma CurrentSold(b: Books, step: Step, p: ProductId)
    requires Valid(b) && step.Selling? && Perform(b, step).Success?
    ensures Current(Apply(b, step), p) == Current(b, p) + TakenOf(SoldLine(b, step, p))
  {
    SoldLineIs(b, step, p);
    SellingTakes(b, step.user, step.counter, step.request, p);
    CurrentTaken(RowOf(b.stock.inventory, p), SoldLine(b, step, p));
  }

  lemma CurrentReturned(b: Books, k: nat, p: ProductId)
    requires Valid(b) && CancelSale(b, k).Success?
    ensures Current(Apply(b, CancellingSale(k)), p) == Current(b, p) + GivenBack(LineOf(b.stock.items, k, p))
  {
    CancellingReturns(b, k, p);
  }

  // ----- lines stay -----

  /** The lines there were, and lines of sales from number `n` on. */
  ghost predicate LinesAdded(items: seq<SaleItem>, items': seq<SaleItem>, n: nat) {
    items <= items' && forall i <- items'[|items|..] :: n <= i.sale
  }

  lemma StepAddsLines(b: Books, step: Step)
    ensures |b.cash.sales| <= |Apply(b, step).cash.sales|
    ensures LinesAdded(b.stock.items, Apply(b, step).stock.items, |b.cash.sales|)
  {
    if Perform(b, step).Success? {
      if step.Selling? {
        var lines := CheckSale(b, step.user, step.counter, step.request).value.1;
        SaleItemsAreOf(lines, |b.cash.sales|);
        assert Apply(b, step).stock.items[|b.stock.items|..] == ItemsOfSale(lines, |b.cash.sales|);
      } else if step.CancellingSale? {
        var none := (i: SaleItem) => 0;
        var zero := (e: StockMovement) => 0;
        Stock.ReturnSaleSum(b.stock, step.sale, |b.stock.items|, zero, none);
      }
    }
  }

  lemma {:induction false} RunAddsLines(b: Books, steps: seq<Step>)
    ensures |b.cash.sales| <= |Run(b, steps).cash.sales|
    ensures LinesAdded(b.stock.items, Run(b, steps).stock.items, |b.cash.sales|)
  {
    if steps != [] {
      var init := steps[..|steps| - 1];
      RunAddsLines(b, init);
      StepAddsLines(Run(b, init), steps[|steps| - 1]);
      var items, mid, end := b.stock.items, Run(b, init).stock.items, Run(b, steps).stock.items;
      assert end[|items|..] == mid[|items|..] + end[|mid|..];
    }
  }

  lemma {:induction false} LineOfStays(items: seq<SaleItem>, more: seq<SaleItem>, k: nat, p: ProductId)
    requires forall i <- more :: i.sale != k
    ensures LineOf(items + more, k, p) == LineOf(items, k, p)
  {
    if more == [] {
      assert items + more == items;
    } else {
      var n := |more| - 1;
      LineOfStays(items, more[..n], k, p);
      assert (items + more)[..|items| + n] == items + more[..n];
    }
  }

  lemma {:induction false} LineOfNewSale(items: seq<SaleItem>, lines: seq<Line>, k: nat, p: ProductId)
    requires forall i <- items :: i.sale != k
    ensures LineOf(items + ItemsOfSale(lines, k), k, p) == LineFor(lines, p)
  {
    if lines == [] {
      assert items + ItemsOfSale(lines, k) == items;
      assert LineOf(items, k, p) == None;
    } else {
      var init, n := lines[..|lines| - 1], |ItemsOfSale(lines[..|lines| - 1], k)|;
      LineOfNewSale(items, init, k, p);
      assert (items + ItemsOfSale(lines, k))[..|items| + n] == items + ItemsOfSale(init, k);
    }
  }

  lemma SoldLineIsThere(b: Books, step: Step, p: ProductId)
    requires Valid(b) && step.Selling? && Perform(b, step).Success?
    ensures LineOf(Apply(b, step).stock.items, |b.cash.sales|, p) == SoldLine(b, step, p)
  {
    SoldLineIs(b, step, p);
    LineOfNewSale(b.stock.items, CheckSale(b, step.user, step.counter, step.request).value.1, |b.cash.sales|, p);
  }
}
