/** What the inventory log and the counters tell about the stock, in every valid state of the books. */
module StockReplay {
  import opened Prelude
  import opened Quantity
  import opened StockLedger
  import opened StockInvariants

  // ----- replaying the log -----

  /** What rounding to the gram kept from an entry of its own. */
  function EntryResidue(p: ProductId): StockMovement -> int {
    (e: StockMovement) =>
      if e.product == p && e.source != BySale && e.source != ByScale then e.quantity - Effect(e.quantity) else 0
  }

  /** What rounding to the gram kept from a sale line. */
  function LineResidue(p: ProductId): SaleItem -> int {
    (i: SaleItem) => if i.line.product == p then -i.line.StockQuantity() - Effect(-i.line.StockQuantity()) else 0
  }

  function LogTotal(b: StockBooks, p: ProductId): int {
    SumBy(b.log, Logged(p))
  }

  function Residues(b: StockBooks, p: ProductId): int {
    SumBy(b.log, EntryResidue(p)) + SumBy(b.items, LineResidue(p))
  }

  /** Weighed surplus of the sale lines that the log does not show as waste. */
  function UnloggedSurplus(b: StockBooks, p: ProductId): int {
    SumBy(b.items, Overweights(p)) - SumBy(b.log, ScaleWasteLogged(p))
  }

  /** The log and the stock differ by the unlogged surplus and the roundings, and by nothing else. */
  lemma LogAgainstStock(b: StockBooks, p: ProductId)
    requires Valid(b)
    ensures LogTotal(b, p) - RowOf(b.inventory, p).current == UnloggedSurplus(b, p) + Residues(b, p)
  {
    assert RowExact(b, p);
    var own := (e: StockMovement) => Applied(p)(e) + EntryResidue(p)(e);
    var sold := (e: StockMovement) => SaleLogged(p)(e) - ScaleWasteLogged(p)(e);
    SumBySplit(b.log, own, Applied(p), EntryResidue(p));
    SumBySplit(b.log, SaleLogged(p), sold, ScaleWasteLogged(p));
    SumBySplit(b.log, Logged(p), own, sold);
    var negative := (i: SaleItem) => -Requested(p)(i);
    var surplus := (i: SaleItem) => Overweights(p)(i) + LineResidue(p)(i);
    SumBySplit(b.items, surplus, Overweights(p), LineResidue(p));
    SumBySplit(b.items, negative, surplus, Taken(p));
    var zero := (i: SaleItem) => 0;
    SumByZero(b.items, zero);
    SumBySplit(b.items, zero, negative, Requested(p));
  }

  /** How far the log of `p` is from its stock. */
  function LogGap(b: StockBooks, p: ProductId): int {
    LogTotal(b, p) - RowOf(b.inventory, p).current
  }

  // ----- the counters -----

  function EntryTie(p: ProductId): StockMovement -> int {
    (e: StockMovement) =>
      if e.product == p && (e.source == ByWaste || e.source == ByAdjustment) && e.quantity < 0 && IsTie(-e.quantity)
      then GRAM
      else 0
  }

  function LineTie(p: ProductId): SaleItem -> int {
    (i: SaleItem) => if i.line.product == p && IsTie(i.line.StockQuantity()) then GRAM else 0
  }

  /** Grams that ties make of the same quantity coming off the stock and onto the outgoing counter. */
  function Ties(b: StockBooks, p: ProductId): int {
    SumBy(b.log, EntryTie(p)) + SumBy(b.items, LineTie(p))
  }

  /** What rounding to the gram adds to a return. */
  function ReturnRounding(p: ProductId): StockMovement -> int {
    (e: StockMovement) => if e.product == p && e.source.ByCancellation? then Column(e.quantity) - e.quantity else 0
  }

  function CounterRounding(p: ProductId): StockMovement -> int {
    (e: StockMovement) =>
      if e.product != p then 0
      else if e.source.ByCancellation? then Column(e.quantity) - e.quantity
      else if (e.source == ByWaste || e.source == ByAdjustment) && e.quantity < 0 && IsTie(-e.quantity) then GRAM
      else 0
  }

  /** How far the stock of `p` is from what came in, less what went out, plus the logged returns. */
  function CounterGap(b: StockBooks, p: ProductId): int {
    var row := RowOf(b.inventory, p);
    row.current - (row.totalIn - row.totalOut + SumBy(b.log, Returned(p)))
  }

  lemma EntryCounted(e: StockMovement, p: ProductId)
    requires EntryExact(e)
    ensures Applied(p)(e) + CountedOut(p)(e) == CountedIn(p)(e) + Returned(p)(e) + CounterRounding(p)(e)
  {
    OutgoingRounding(if e.quantity < 0 then -e.quantity else e.quantity);
    WholeGramsExactly(e.quantity);
  }

  /** The counters miss the stock by the outgoing ties and by what rounding made of the returns. */
  lemma CountersAgainstStock(b: StockBooks, p: ProductId)
    requires Valid(b)
    ensures CounterGap(b, p) == Ties(b, p) + SumBy(b.log, ReturnRounding(p))
    ensures CounterGap(b, p) == SumBy(b.log, CounterRounding(p)) + SumBy(b.items, LineTie(p))
  {
    assert RowExact(b, p);
    forall i | 0 <= i < |b.log|
      ensures Applied(p)(b.log[i]) + CountedOut(p)(b.log[i])
           == CountedIn(p)(b.log[i]) + Returned(p)(b.log[i]) + CounterRounding(p)(b.log[i])
    {
      assert b.log[i] in b.log;
      EntryCounted(b.log[i], p);
    }
    var moved := (e: StockMovement) => Applied(p)(e) + CountedOut(p)(e);
    var extra := (e: StockMovement) => Returned(p)(e) + CounterRounding(p)(e);
    SumBySplit(b.log, moved, Applied(p), CountedOut(p));
    SumBySplit(b.log, extra, Returned(p), CounterRounding(p));
    SumBySplit(b.log, CounterRounding(p), EntryTie(p), ReturnRounding(p));
    SumBySplit(b.log, moved, CountedIn(p), extra);
    LinesCounted(b, p);
  }

  lemma LinesCounted(b: StockBooks, p: ProductId)
    requires Valid(b)
    ensures SumBy(b.items, LineTie(p)) == SumBy(b.items, Taken(p)) + SumBy(b.items, CountedSold(p))
  {
    forall i | 0 <= i < |b.items|
      ensures LineTie(p)(b.items[i]) == Taken(p)(b.items[i]) + CountedSold(p)(b.items[i])
    {
      assert b.items[i] in b.items && LineExact(b.items[i].line);
      OutgoingRounding(b.items[i].line.StockQuantity());
    }
    SumBySplit(b.items, LineTie(p), Taken(p), CountedSold(p));
  }

  // ----- what is lost -----

  function WasteRounding(p: ProductId): StockMovement -> int {
    (e: StockMovement) => if e.product == p && e.source == ByWaste then Column(-e.quantity) + e.quantity else 0
  }

  /** How far the lost counter of `p` is from the waste logged by hand. */
  function LostGap(b: StockBooks, p: ProductId): int {
    RowOf(b.inventory, p).lost - SumBy(b.log, Wasted(p))
  }

  lemma LostAgainstWaste(b: StockBooks, p: ProductId)
    requires Valid(b)
    ensures LostGap(b, p) == SumBy(b.log, WasteRounding(p))
  {
    assert RowExact(b, p);
    SumBySplit(b.log, CountedLost(p), Wasted(p), WasteRounding(p));
  }

  /** What is counted as lost is part of what is counted as gone out. */
  lemma LostWithinOut(b: StockBooks, p: ProductId)
    requires Valid(b)
    ensures 0 <= RowOf(b.inventory, p).lost <= RowOf(b.inventory, p).totalOut
  {
    assert RowExact(b, p);
    SumByAtMost(b.log, CountedLost(p), CountedOut(p));
    forall i | 0 <= i < |b.items|
      ensures 0 <= CountedSold(p)(b.items[i])
    {
      assert b.items[i] in b.items && LineExact(b.items[i].line);
    }
    SumByNonnegative(b.items, CountedSold(p));
  }
}
