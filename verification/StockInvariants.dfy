/** What every stock operation keeps: the log and the sale lines account for the stock to the gram. */
module StockInvariants {
  import opened Prelude
  import opened Quantity
  import opened StockLedger

  // ----- totals over the log, by product -----

  function Logged(p: ProductId): StockMovement -> int {
    (e: StockMovement) => if e.product == p then e.quantity else 0
  }

  /** What an entry that is written by itself (not for a sale line) moved the stock by. */
  function Applied(p: ProductId): StockMovement -> int {
    (e: StockMovement) => if e.product == p && e.source != BySale && e.source != ByScale then Effect(e.quantity) else 0
  }

  function CountedIn(p: ProductId): StockMovement -> int {
    (e: StockMovement) =>
      if e.product == p && (e.kind == StockIn || (e.kind == Adjustment && e.quantity > 0)) then Column(e.quantity)
      else 0
  }

  function CountedOut(p: ProductId): StockMovement -> int {
    (e: StockMovement) =>
      if e.product == p && (e.source == ByWaste || (e.kind == Adjustment && e.quantity < 0)) then Column(-e.quantity)
      else 0
  }

  function CountedLost(p: ProductId): StockMovement -> int {
    (e: StockMovement) => if e.product == p && e.source == ByWaste then Column(-e.quantity) else 0
  }

  function Returned(p: ProductId): StockMovement -> int {
    (e: StockMovement) => if e.product == p && e.kind == Return then e.quantity else 0
  }

  function Wasted(p: ProductId): StockMovement -> int {
    (e: StockMovement) => if e.product == p && e.source == ByWaste then -e.quantity else 0
  }

  function SaleLogged(p: ProductId): StockMovement -> int {
    (e: StockMovement) => if e.product == p && e.source == BySale then e.quantity else 0
  }

  function ScaleWasteLogged(p: ProductId): StockMovement -> int {
    (e: StockMovement) => if e.product == p && e.source == ByScale then -e.quantity else 0
  }

  // ----- totals over the sale lines -----

  function Taken(p: ProductId): SaleItem -> int {
    (i: SaleItem) => if i.line.product == p then Effect(-i.line.StockQuantity()) else 0
  }

  function CountedSold(p: ProductId): SaleItem -> int {
    (i: SaleItem) => if i.line.product == p then Column(i.line.StockQuantity()) else 0
  }

  function Requested(p: ProductId): SaleItem -> int {
    (i: SaleItem) => if i.line.product == p then i.line.quantity else 0
  }

  function Overweights(p: ProductId): SaleItem -> int {
    (i: SaleItem) => if i.line.product == p then i.line.Overweight() else 0
  }

  // ----- the invariant -----

  /** The sign an entry's kind gives it; every entry but a return adds up. */
  predicate EntryExact(e: StockMovement) {
    && (e.kind != Return ==> e.next == e.previous + e.quantity)
    && (e.source == ByHand <==> e.kind == StockIn)
    && (e.source == ByAdjustment <==> e.kind == Adjustment)
    && (e.source == BySale <==> e.kind == SaleOut)
    && (e.source == ByWaste || e.source == ByScale <==> e.kind == Waste)
    && (e.source.ByCancellation? <==> e.kind == Return)
    && (e.kind == StockIn ==> 0 < e.quantity)
    && (e.kind == Waste ==> e.quantity < 0)
    && (e.kind == SaleOut ==> e.quantity <= 0)
    && (e.kind == Return ==> 0 <= e.quantity)
  }

  predicate LineExact(line: Line) {
    && 0 <= line.quantity
    && 0 <= line.StockQuantity() <= line.previous
    && WholeGrams(line.previous)
    && (line.scale.Some? ==>
          line.scale.value.weightDifference == line.Overweight() && line.WasteQuantity() == Max(line.Overweight(), 0))
  }

  predicate RowSound(row: Inventory) {
    && 0 <= row.current && 0 <= row.totalOut && 0 <= row.totalIn && 0 <= row.lost
    && WholeGrams(row.current) && WholeGrams(row.totalOut) && WholeGrams(row.totalIn) && WholeGrams(row.lost)
  }

  predicate RowExact(b: StockBooks, p: ProductId) {
    var row := RowOf(b.inventory, p);
    && RowSound(row)
    && row.current == SumBy(b.log, Applied(p)) + SumBy(b.items, Taken(p))
    && row.totalIn == SumBy(b.log, CountedIn(p))
    && row.totalOut == SumBy(b.log, CountedOut(p)) + SumBy(b.items, CountedSold(p))
    && row.lost == SumBy(b.log, CountedLost(p))
    && SumBy(b.log, SaleLogged(p)) == -SumBy(b.items, Requested(p))
  }

  ghost predicate Valid(b: StockBooks) {
    && (forall p: ProductId :: RowExact(b, p))
    && (forall e <- b.log :: EntryExact(e))
    && (forall i <- b.items :: LineExact(i.line) && i.line.product in b.inventory)
  }

  lemma EmptyIsValid()
    ensures Valid(EMPTY_STOCK)
  {
  }

  lemma EntryAdds(log: seq<StockMovement>, e: StockMovement, p: ProductId)
    ensures SumBy(log + [e], Applied(p)) == SumBy(log, Applied(p)) + Applied(p)(e)
    ensures SumBy(log + [e], CountedIn(p)) == SumBy(log, CountedIn(p)) + CountedIn(p)(e)
    ensures SumBy(log + [e], CountedOut(p)) == SumBy(log, CountedOut(p)) + CountedOut(p)(e)
    ensures SumBy(log + [e], CountedLost(p)) == SumBy(log, CountedLost(p)) + CountedLost(p)(e)
    ensures SumBy(log + [e], SaleLogged(p)) == SumBy(log, SaleLogged(p)) + SaleLogged(p)(e)
  {
    SumByAppend(log, e, Applied(p));
    SumByAppend(log, e, CountedIn(p));
    SumByAppend(log, e, CountedOut(p));
    SumByAppend(log, e, CountedLost(p));
    SumByAppend(log, e, SaleLogged(p));
  }

  lemma {:induction false} LogAdds(log: seq<StockMovement>, more: seq<StockMovement>, p: ProductId)
    ensures SumBy(log + more, Applied(p)) == SumBy(log, Applied(p)) + SumBy(more, Applied(p))
    ensures SumBy(log + more, CountedIn(p)) == SumBy(log, CountedIn(p)) + SumBy(more, CountedIn(p))
    ensures SumBy(log + more, CountedOut(p)) == SumBy(log, CountedOut(p)) + SumBy(more, CountedOut(p))
    ensures SumBy(log + more, CountedLost(p)) == SumBy(log, CountedLost(p)) + SumBy(more, CountedLost(p))
    ensures SumBy(log + more, SaleLogged(p)) == SumBy(log, SaleLogged(p)) + SumBy(more, SaleLogged(p))
  {
    SumByConcat(log, more, Applied(p));
    SumByConcat(log, more, CountedIn(p));
    SumByConcat(log, more, CountedOut(p));
    SumByConcat(log, more, CountedLost(p));
    SumByConcat(log, more, SaleLogged(p));
  }

  /** Writes of whole quantities to the columns of one row. */
  lemma RowWrites(row: Inventory, q: int)
    requires RowSound(row) && 0 <= row.current + q
    ensures Column(row.current + q) == row.current + Effect(q)
    ensures WholeGrams(Column(row.current + q)) && 0 <= Column(row.current + q)
    ensures
      var abs := if q < 0 then -q else q;
      && Column(row.totalOut + abs) == row.totalOut + Column(abs) && WholeGrams(Column(row.totalOut + abs))
      && Column(row.totalIn + abs) == row.totalIn + Column(abs) && WholeGrams(Column(row.totalIn + abs))
      && Column(row.lost + abs) == row.lost + Column(abs) && WholeGrams(Column(row.lost + abs))
      && 0 <= Column(abs)
  {
    var abs := if q < 0 then -q else q;
    ColumnShift(row.current, q);
    ColumnShift(row.totalOut, abs);
    ColumnShift(row.totalIn, abs);
    ColumnShift(row.lost, abs);
    assert Effect(abs) == Column(abs);
  }

  /** A row whose columns move by what its new log entry stands for stays exact, and so do the others. */
  /** The row moves as the entry says, and the entry is none of a sale. */
  predicate RowFollows(was: Inventory, row: Inventory, e: StockMovement, p: ProductId) {
    && row.current == was.current + Applied(p)(e) && row.totalIn == was.totalIn + CountedIn(p)(e)
    && row.totalOut == was.totalOut + CountedOut(p)(e) && row.lost == was.lost + CountedLost(p)(e)
    && SaleLogged(p)(e) == 0
  }

  /** A manual operation: one row written and one entry logged, in step. */
  predicate OneEntry(b: StockBooks, b': StockBooks, p: ProductId) {
    && |b'.log| == |b.log| + 1 && p in b'.inventory
    && b' == b.(inventory := b.inventory[p := b'.inventory[p]], log := b.log + [b'.log[|b.log|]])
    && EntryExact(b'.log[|b.log|]) && b'.log[|b.log|].product == p && RowSound(b'.inventory[p])
    && RowFollows(RowOf(b.inventory, p), b'.inventory[p], b'.log[|b.log|], p)
  }

  lemma EntryRecorded(b: StockBooks, p: ProductId, row: Inventory, e: StockMovement)
    requires Valid(b) && EntryExact(e) && e.product == p && RowSound(row)
    requires RowFollows(RowOf(b.inventory, p), row, e, p)
    ensures Valid(b.(inventory := b.inventory[p := row], log := b.log + [e]))
  {
    var b' := b.(inventory := b.inventory[p := row], log := b.log + [e]);
    forall x: ProductId
      ensures RowExact(b', x)
    {
      assert RowExact(b, x);
      EntryAdds(b.log, e, x);
      assert x != p ==> RowOf(b'.inventory, x) == RowOf(b.inventory, x);
    }
  }

  lemma AddStockIsOneEntry(b: StockBooks, catalog: Catalog, p: ProductId, input: QuantityInput)
    requires RowSound(RowOf(b.inventory, p)) && AddStock(b, catalog, p, input).Success?
    ensures OneEntry(b, AddStock(b, catalog, p, input).value, p)
  {
    RowWrites(RowOf(b.inventory, p), AddStock(b, catalog, p, input).value.log[|b.log|].quantity);
  }

  lemma AddStockKeeps(b: StockBooks, catalog: Catalog, p: ProductId, input: QuantityInput)
    requires Valid(b) && AddStock(b, catalog, p, input).Success?
    ensures Valid(AddStock(b, catalog, p, input).value)
  {
    var b' := AddStock(b, catalog, p, input).value;
    assert RowExact(b, p);
    AddStockIsOneEntry(b, catalog, p, input);
    EntryRecorded(b, p, b'.inventory[p], b'.log[|b.log|]);
  }

  lemma AdjustedRowFollows(row: Inventory, next: int, p: ProductId)
    requires RowSound(row) && 0 <= next
    ensures
      var e := StockMovement(p, Adjustment, next - row.current, row.current, next, ByAdjustment);
      RowSound(AdjustedRow(row, next)) && RowFollows(row, AdjustedRow(row, next), e, p)
  {
    RowWrites(row, next - row.current);
  }

  lemma AdjustStockIsOneEntry(b: StockBooks, catalog: Catalog, p: ProductId, input: QuantityInput)
    requires RowSound(RowOf(b.inventory, p)) && AdjustStock(b, catalog, p, input).Success?
    ensures OneEntry(b, AdjustStock(b, catalog, p, input).value, p)
  {
    AdjustedRowFollows(RowOf(b.inventory, p), AdjustStock(b, catalog, p, input).value.log[|b.log|].next, p);
  }

  lemma AdjustStockKeeps(b: StockBooks, catalog: Catalog, p: ProductId, input: QuantityInput)
    requires Valid(b) && AdjustStock(b, catalog, p, input).Success?
    ensures Valid(AdjustStock(b, catalog, p, input).value)
  {
    var b' := AdjustStock(b, catalog, p, input).value;
    assert RowExact(b, p);
    AdjustStockIsOneEntry(b, catalog, p, input);
    EntryRecorded(b, p, b'.inventory[p], b'.log[|b.log|]);
  }

  lemma WasteStockIsOneEntry(b: StockBooks, catalog: Catalog, p: ProductId, input: QuantityInput)
    requires RowSound(RowOf(b.inventory, p)) && WasteStock(b, catalog, p, input).Success?
    ensures OneEntry(b, WasteStock(b, catalog, p, input).value, p)
  {
    RowWrites(RowOf(b.inventory, p), WasteStock(b, catalog, p, input).value.log[|b.log|].quantity);
  }

  lemma WasteStockKeeps(b: StockBooks, catalog: Catalog, p: ProductId, input: QuantityInput)
    requires Valid(b) && WasteStock(b, catalog, p, input).Success?
    ensures Valid(WasteStock(b, catalog, p, input).value)
  {
    var b' := WasteStock(b, catalog, p, input).value;
    assert RowExact(b, p);
    WasteStockIsOneEntry(b, catalog, p, input);
    EntryRecorded(b, p, b'.inventory[p], b'.log[|b.log|]);
  }

  // ----- sales -----

  ghost predicate DistinctLines(lines: seq<Line>) {
    forall i, j | 0 <= i < j < |lines| :: lines[i].product != lines[j].product
  }

  /** The lines were resolved against the rows as they are now. */
  ghost predicate ResolvedAgainst(inventory: map<ProductId, Inventory>, lines: seq<Line>) {
    forall line <- lines ::
      LineExact(line) && line.product in inventory && line.previous == inventory[line.product].current
  }

  /** A total that takes no notice of a line's entries is not moved by a sale. */
  lemma {:induction false} SaleEntriesZero(lines: seq<Line>, autoWaste: bool, f: StockMovement -> int)
    requires forall line :: f(SaleEntry(line)) == 0 && f(ScaleWasteEntry(line)) == 0
    ensures SumBy(SaleEntries(lines, autoWaste), f) == 0
  {
    if lines != [] {
      var init, last := lines[..|lines| - 1], lines[|lines| - 1];
      SaleEntriesZero(init, autoWaste, f);
      LineEntriesSum(last, autoWaste, f);
      SumByConcat(SaleEntries(init, autoWaste), LineEntries(last, autoWaste), f);
    }
  }

  lemma LineEntriesSum(line: Line, autoWaste: bool, f: StockMovement -> int)
    ensures SumBy(LineEntries(line, autoWaste), f)
         == f(SaleEntry(line)) + if line.WasteQuantity() > 0 && autoWaste then f(ScaleWasteEntry(line)) else 0
  {
    SumByAppend([], SaleEntry(line), f);
    assert [] + [SaleEntry(line)] == [SaleEntry(line)];
    SumByAppend([SaleEntry(line)], ScaleWasteEntry(line), f);
  }

  lemma {:induction false} SaleEntriesLogged(lines: seq<Line>, k: nat, autoWaste: bool, p: ProductId)
    ensures SumBy(SaleEntries(lines, autoWaste), SaleLogged(p)) == -SumBy(ItemsOfSale(lines, k), Requested(p))
  {
    if lines != [] {
      var init, last := lines[..|lines| - 1], lines[|lines| - 1];
      SaleEntriesLogged(init, k, autoWaste, p);
      LineEntriesSum(last, autoWaste, SaleLogged(p));
      SumByConcat(SaleEntries(init, autoWaste), LineEntries(last, autoWaste), SaleLogged(p));
      SumByAppend(ItemsOfSale(init, k), SaleItem(k, last), Requested(p));
    }
  }

  /** A total over the lines of product `p` gets from a sale what its one line for it weighs, if it has one. */
  lemma {:induction false} SaleItemsSum(lines: seq<Line>, k: nat, p: ProductId, g: SaleItem -> int)
    requires DistinctLines(lines) && forall i: SaleItem :: i.line.product != p ==> g(i) == 0
    ensures SumBy(ItemsOfSale(lines, k), g)
            == if LineFor(lines, p).Some? then g(SaleItem(k, LineFor(lines, p).value)) else 0
  {
    if lines != [] {
      var init, last := lines[..|lines| - 1], lines[|lines| - 1];
      SaleItemsSum(init, k, p, g);
      SumByAppend(ItemsOfSale(init, k), SaleItem(k, last), g);
    }
  }

  lemma {:induction false} SaleRowsExact(inventory: map<ProductId, Inventory>, lines: seq<Line>, k: nat,
                                         autoWaste: bool)
    requires ResolvedAgainst(inventory, lines)
    ensures forall e <- SaleEntries(lines, autoWaste) :: EntryExact(e)
    ensures forall i <- ItemsOfSale(lines, k) :: LineExact(i.line) && i.line.product in inventory
  {
    if lines != [] {
      SaleRowsExact(inventory, lines[..|lines| - 1], k, autoWaste);
      assert LineExact(lines[|lines| - 1]);
      assert forall e <- LineEntries(lines[|lines| - 1], autoWaste) :: EntryExact(e);
    }
  }

  lemma SoldRowSound(row: Inventory, line: Line)
    requires RowSound(row) && LineExact(line) && line.previous == row.current
    ensures RowSound(SoldRow(row, line))
    ensures SoldRow(row, line) == row.(current := row.current + Effect(-line.StockQuantity()),
                                       totalOut := row.totalOut + Column(line.StockQuantity()))
  {
    RowWrites(row, -line.StockQuantity());
  }

  lemma PostedEntries(b: StockBooks, k: nat, lines: seq<Line>, autoWaste: bool, p: ProductId)
    ensures
      var b' := PostLines(b, k, lines, autoWaste);
      && SumBy(b'.log, Applied(p)) == SumBy(b.log, Applied(p))
      && SumBy(b'.log, CountedIn(p)) == SumBy(b.log, CountedIn(p))
      && SumBy(b'.log, CountedOut(p)) == SumBy(b.log, CountedOut(p))
      && SumBy(b'.log, CountedLost(p)) == SumBy(b.log, CountedLost(p))
      && SumBy(b'.log, SaleLogged(p)) + SumBy(b'.items, Requested(p))
         == SumBy(b.log, SaleLogged(p)) + SumBy(b.items, Requested(p))
  {
    SaleEntriesZero(lines, autoWaste, Applied(p));
    SaleEntriesZero(lines, autoWaste, CountedIn(p));
    SaleEntriesZero(lines, autoWaste, CountedOut(p));
    SaleEntriesZero(lines, autoWaste, CountedLost(p));
    SaleEntriesLogged(lines, k, autoWaste, p);
    LogAdds(b.log, SaleEntries(lines, autoWaste), p);
    SumByConcat(b.items, ItemsOfSale(lines, k), Requested(p));
  }

  lemma PostedItems(b: StockBooks, k: nat, lines: seq<Line>, autoWaste: bool, p: ProductId)
    requires DistinctLines(lines)
    ensures
      var b', line := PostLines(b, k, lines, autoWaste), LineFor(lines, p);
      && SumBy(b'.items, Taken(p))
         == SumBy(b.items, Taken(p)) + (if line.Some? then Effect(-line.value.StockQuantity()) else 0)
      && SumBy(b'.items, CountedSold(p))
         == SumBy(b.items, CountedSold(p)) + (if line.Some? then Column(line.value.StockQuantity()) else 0)
  {
    SaleItemsSum(lines, k, p, Taken(p));
    SaleItemsSum(lines, k, p, CountedSold(p));
    SumByConcat(b.items, ItemsOfSale(lines, k), Taken(p));
    SumByConcat(b.items, ItemsOfSale(lines, k), CountedSold(p));
  }

  lemma PostLinesRow(b: StockBooks, k: nat, lines: seq<Line>, autoWaste: bool, p: ProductId)
    requires RowExact(b, p) && DistinctLines(lines) && ResolvedAgainst(b.inventory, lines)
    ensures RowExact(PostLines(b, k, lines, autoWaste), p)
  {
    PostedEntries(b, k, lines, autoWaste, p);
    PostedItems(b, k, lines, autoWaste, p);
    SoldRowIs(b.inventory, lines, p);
  }

  /** The row after a sale: what the line takes, rounded, is off the stock and counted as gone out. */
  function RowTaken(row: Inventory, line: Option<Line>): Inventory {
    match line
    case None => row
    case Some(l) =>
      row.(current := row.current + Effect(-l.StockQuantity()), totalOut := row.totalOut + Column(l.StockQuantity()))
  }

  lemma SoldRowIs(inventory: map<ProductId, Inventory>, lines: seq<Line>, p: ProductId)
    requires RowSound(RowOf(inventory, p)) && ResolvedAgainst(inventory, lines)
    ensures
      var row' := RowOf(SoldInventory(inventory, lines), p);
      RowSound(row') && row' == RowTaken(RowOf(inventory, p), LineFor(lines, p))
  {
    if LineFor(lines, p).Some? {
      SoldRowSound(inventory[p], LineFor(lines, p).value);
    }
  }

  lemma PostLinesKeeps(b: StockBooks, k: nat, lines: seq<Line>, autoWaste: bool)
    requires Valid(b) && DistinctLines(lines) && ResolvedAgainst(b.inventory, lines)
    ensures Valid(PostLines(b, k, lines, autoWaste))
  {
    SaleRowsExact(b.inventory, lines, k, autoWaste);
    forall p: ProductId
      ensures RowExact(PostLines(b, k, lines, autoWaste), p)
    {
      PostLinesRow(b, k, lines, autoWaste, p);
    }
  }

  // ----- returns -----

  lemma ReturnItemKeeps(b: StockBooks, k: nat, item: SaleItem)
    requires Valid(b) && LineExact(item.line) && item.line.product in b.inventory
    ensures Valid(ReturnItem(b, k, item))
  {
    var p, b' := item.line.product, ReturnItem(b, k, item);
    assert RowExact(b, p);
    RowWrites(b.inventory[p], item.line.quantity);
    EntryRecorded(b, p, b'.inventory[p], b'.log[|b.log|]);
  }

  lemma {:induction false} ReturnSaleKeeps(b: StockBooks, k: nat, n: nat)
    requires Valid(b) && n <= |b.items|
    ensures Valid(ReturnSale(b, k, n)) && ReturnSale(b, k, n).items == b.items
    ensures ReturnSale(b, k, n).inventory.Keys == b.inventory.Keys
    decreases n
  {
    if n > 0 {
      ReturnSaleKeeps(b, k, n - 1);
      if b.items[n - 1].sale == k { ReturnItemKeeps(ReturnSale(b, k, n - 1), k, b.items[n - 1]); }
    }
  }

  /** What the returns of a sale add to a total over the log: `g` gives the part of each line. */
  lemma {:induction false} ReturnSaleSum(b: StockBooks, k: nat, n: nat, f: StockMovement -> int, g: SaleItem -> int)
    requires n <= |b.items|
    requires forall i: SaleItem :: g(i) == if i.sale == k then f(ReturnEntry(k, i.line)) else 0
    ensures ReturnSale(b, k, n).items == b.items
    ensures SumBy(ReturnSale(b, k, n).log, f) == SumBy(b.log, f) + SumBy(b.items[..n], g)
    decreases n
  {
    if n > 0 {
      ReturnSaleSum(b, k, n - 1, f, g);
      var item := b.items[n - 1];
      assert b.items[..n] == b.items[..n - 1] + [item];
      SumByAppend(b.items[..n - 1], item, g);
      SumByAppend(ReturnSale(b, k, n - 1).log, ReturnEntry(k, item.line), f);
    }
  }

  // ----- resolving -----

  lemma {:induction false} ResolveItemsExact(inventory: map<ProductId, Inventory>, c: Counter, items: seq<ItemRequest>)
    requires ResolveItems(inventory, At(c), items).Success?
    requires forall p <- inventory :: WholeGrams(inventory[p].current)
    ensures
      var lines := ResolveItems(inventory, At(c), items).value;
      && |lines| == |items| && (forall i | 0 <= i < |items| :: lines[i].product == items[i].product)
      && ResolvedAgainst(inventory, lines)
      && (forall line <- lines :: 0 <= line.total)
      && (!c.settings.allowUnderWeight ==> forall line <- lines :: 0 <= line.Overweight() == line.WasteQuantity())
  {
    if items != [] {
      ResolveItemsExact(inventory, c, items[..|items| - 1]);
    }
  }
}
