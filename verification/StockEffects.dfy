/** What the three manual stock operations do, told from their requests. */
module StockEffects {
  import opened Prelude
  import opened CashLedger
  import opened Quantity
  import opened StockLedger
  import opened StockInvariants
  import opened SaleEffects

  /** The figure of the request: of a bulk product kilograms, else grams, else the plain quantity. */
  function StockFigure(product: Product, input: QuantityInput): Option<int> {
    FirstGiven(if product.isBulk then [input.quantityKg, input.quantityGrams, input.quantity] else [input.quantity])
  }

  predicate Handles(catalog: Catalog, p: ProductId) {
    p in catalog && catalog[p].status in {ProductActive, ProductInactive}
  }

  predicate FigureIs(catalog: Catalog, p: ProductId, input: QuantityInput, q: int) {
    Handles(catalog, p) && StockFigure(catalog[p], input) == Some(q)
  }

  /** Why a manual operation is refused for its product or its figure. */
  predicate FigureRefused(catalog: Catalog, p: ProductId, input: QuantityInput, least: int, e: Error) {
    || (e == ProductNotFound && !Handles(catalog, p))
    || (e == QuantityNotPositive && Handles(catalog, p)
        && (StockFigure(catalog[p], input).None? || StockFigure(catalog[p], input).value < least))
  }

  /** One row is written and one entry logged: from the stock there was to `next`. */
  ghost predicate OneWrite(b: StockBooks, b': StockBooks, p: ProductId, row: Inventory, kind: StockKind, next: int) {
    var was := RowOf(b.inventory, p).current;
    && b'.inventory == b.inventory[p := row] && b'.items == b.items
    && |b'.log| == |b.log| + 1 && b'.log[..|b.log|] == b.log
    && var e := b'.log[|b.log|];
       e.product == p && e.kind == kind && e.quantity == next - was && e.previous == was && e.next == next
  }

  /** A column of whole grams after `q` is added to it, to the nearest gram. */
  predicate IsGramsAfter(column: int, was: int, q: int) {
    WholeGrams(column) && column - 500 <= was + q < column + 500
  }

  lemma ColumnIsNearest(v: int)
    requires 0 <= v
    ensures IsGramsAfter(Column(v), 0, v)
  {
    assert (v + 500) / 1000 * 1000 == v + 500 - (v + 500) % 1000;
  }

  lemma FigureGiven(product: Product, input: QuantityInput)
    ensures StockFigure(product, input) == RawQuantity(product.isBulk, input)
  {
    FirstOfThree(input.quantityKg, input.quantityGrams, input.quantity);
    assert [input.quantity][1..] == [] && FirstGiven([input.quantity]) == input.quantity;
  }

  lemma AddingMeans(b: StockBooks, catalog: Catalog, p: ProductId, input: QuantityInput)
    requires Valid(b)
    ensures
      match AddStock(b, catalog, p, input)
      case Failure(e) => FigureRefused(catalog, p, input, 1, e)
      case Success(b') =>
        exists q: int | 1 <= q && FigureIs(catalog, p, input, q) ::
          var was, row := RowOf(b.inventory, p), RowOf(b'.inventory, p);
          && IsGramsAfter(row.current, was.current, q) && IsGramsAfter(row.totalIn, was.totalIn, q)
          && row.totalOut == was.totalOut && row.lost == was.lost
          && OneWrite(b, b', p, row, StockIn, was.current + q)
  {
    assert RowExact(b, p);
    if Handles(catalog, p) {
      FigureGiven(catalog[p], input);
      var was := RowOf(b.inventory, p);
      if AddStock(b, catalog, p, input).Success? {
        var q := RawQuantity(catalog[p].isBulk, input).value;
        ColumnIsNearest(was.current + q);
        ColumnIsNearest(was.totalIn + q);
        assert FigureIs(catalog, p, input, q);
      }
    }
  }

  lemma AdjustingMeans(b: StockBooks, catalog: Catalog, p: ProductId, input: QuantityInput)
    requires Valid(b)
    ensures
      match AdjustStock(b, catalog, p, input)
      case Failure(e) => FigureRefused(catalog, p, input, 0, e)
      case Success(b') =>
        exists q: int | 0 <= q && FigureIs(catalog, p, input, q) ::
          var was, row := RowOf(b.inventory, p), RowOf(b'.inventory, p);
          && IsGramsAfter(row.current, 0, q)
          && (if was.current < q then IsGramsAfter(row.totalIn, was.totalIn, q - was.current)
              else row.totalIn == was.totalIn)
          && (if q < was.current then IsGramsAfter(row.totalOut, was.totalOut, was.current - q)
              else row.totalOut == was.totalOut)
          && row.lost == was.lost && OneWrite(b, b', p, row, Adjustment, q)
  {
    assert RowExact(b, p);
    if Handles(catalog, p) {
      FigureGiven(catalog[p], input);
      var was := RowOf(b.inventory, p);
      if AdjustStock(b, catalog, p, input).Success? {
        var q := RawQuantity(catalog[p].isBulk, input).value;
        ColumnIsNearest(q);
        if was.current < q { ColumnIsNearest(was.totalIn + (q - was.current)); }
        if q < was.current { ColumnIsNearest(was.totalOut + (was.current - q)); }
        assert FigureIs(catalog, p, input, q);
      }
    }
  }

  lemma WastingMeans(b: StockBooks, catalog: Catalog, p: ProductId, input: QuantityInput)
    requires Valid(b)
    ensures
      match WasteStock(b, catalog, p, input)
      case Failure(e) =>
        || FigureRefused(catalog, p, input, 1, e)
        || (e == InsufficientStock && exists q: int | RowOf(b.inventory, p).current < q ::
              FigureIs(catalog, p, input, q))
      case Success(b') =>
        exists q: int | 1 <= q && FigureIs(catalog, p, input, q) ::
          var was, row := RowOf(b.inventory, p), RowOf(b'.inventory, p);
          && q <= was.current && IsGramsAfter(row.current, was.current, -q)
          && IsGramsAfter(row.totalOut, was.totalOut, q) && IsGramsAfter(row.lost, was.lost, q)
          && row.totalIn == was.totalIn && OneWrite(b, b', p, row, Waste, was.current - q)
  {
    assert RowExact(b, p);
    if Handles(catalog, p) {
      FigureGiven(catalog[p], input);
      var was := RowOf(b.inventory, p);
      if RawQuantity(catalog[p].isBulk, input).Some? {
        assert FigureIs(catalog, p, input, RawQuantity(catalog[p].isBulk, input).value);
      }
      if WasteStock(b, catalog, p, input).Success? {
        var q := RawQuantity(catalog[p].isBulk, input).value;
        ColumnIsNearest(was.current - q);
        ColumnIsNearest(was.totalOut + q);
        ColumnIsNearest(was.lost + q);
      }
    }
  }
}
