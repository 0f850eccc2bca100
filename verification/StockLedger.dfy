/**
 The stock side of the club: inventory rows with their counters, the log of inventory movements,
 and the sale lines. Inventory columns hold whole grams, the log and the lines keep six decimals.
 */
module StockLedger {
  import opened Prelude
  import opened CashLedger
  import opened Quantity

  type ProductId = string

  datatype ProductStatus = ProductActive | ProductInactive | ProductArchived
  datatype Product = Product(status: ProductStatus, isBulk: bool, price: nat)
  type Catalog = map<ProductId, Product>

  datatype Inventory = Inventory(current: int, totalIn: int, totalOut: int, lost: int)
  const EMPTY_ROW := Inventory(0, 0, 0, 0)

  datatype StockKind = StockIn | SaleOut | Adjustment | Waste | Return
  datatype Source = ByHand | ByAdjustment | ByWaste | BySale | ByScale | ByCancellation(sale: nat)
  datatype StockMovement = StockMovement(product: ProductId, kind: StockKind, quantity: int, previous: int, next: int,
                                         source: Source)

  datatype PricingMode = ByUnit | ByWeight | ByAmount
  datatype ScaleData = ScaleData(actualWeight: int, weightDifference: int, wasteQuantity: int,
                                 toleranceExceeded: bool, overridden: bool)

  /** A line of an accepted sale, with the stock it was checked against. */
  datatype Line = Line(product: ProductId, quantity: int, total: int, mode: PricingMode, requestedAmount: Option<int>,
                       scale: Option<ScaleData>, previous: int)
  {
    /** What the line takes from stock: the weighed quantity if there is one. */
    function StockQuantity(): int {
      if scale.Some? then scale.value.actualWeight else quantity
    }

    function WasteQuantity(): int {
      if scale.Some? then scale.value.wasteQuantity else 0
    }

    /** Weighed minus requested. */
    function Overweight(): int {
      StockQuantity() - quantity
    }
  }

  datatype SaleItem = SaleItem(sale: nat, line: Line)

  datatype StockBooks = StockBooks(inventory: map<ProductId, Inventory>, log: seq<StockMovement>, items: seq<SaleItem>)

  const EMPTY_STOCK := StockBooks(map[], [], [])

  function RowOf(inventory: map<ProductId, Inventory>, p: ProductId): Inventory {
    if p in inventory then inventory[p] else EMPTY_ROW
  }

  // ----- manual operations -----

  datatype QuantityInput = QuantityInput(quantity: Option<int>, quantityKg: Option<int>, quantityGrams: Option<int>)

  function Either(first: Option<int>, second: Option<int>): Option<int> {
    if first.Some? then first else second
  }

  function RawQuantity(isBulk: bool, input: QuantityInput): Option<int> {
    if isBulk then Either(input.quantityKg, Either(input.quantityGrams, input.quantity)) else input.quantity
  }

  /** `r` takes the given quantity as it is if it is positive, or zero where that is allowed, and else refuses it. */
  predicate Takes(r: Result<int, Error>, given: Option<int>, allowZero: bool) {
    if given.Some? && (0 < given.value || (allowZero && given.value == 0)) then r == Success(given.value)
    else r == Failure(QuantityNotPositive)
  }

  function NormalizeStockQuantity(isBulk: bool, input: QuantityInput, allowZero: bool): (r: Result<int, Error>)
    ensures isBulk && input.quantityKg.Some? ==> Takes(r, input.quantityKg, allowZero)
    ensures isBulk && input.quantityKg.None? && input.quantityGrams.Some? ==> Takes(r, input.quantityGrams, allowZero)
    ensures isBulk && input.quantityKg.None? && input.quantityGrams.None? ==> Takes(r, input.quantity, allowZero)
    ensures !isBulk ==> Takes(r, input.quantity, allowZero)
    ensures r.Success? ==> 0 <= r.value && (!allowZero ==> 0 < r.value)
  {
    var raw := RawQuantity(isBulk, input);
    if allowZero && raw == Some(0) then Success(0)
    else if raw.None? || raw.value <= 0 then Failure(QuantityNotPositive)
    else Success(raw.value)
  }

  predicate Stockable(catalog: Catalog, p: ProductId) {
    p in catalog && catalog[p].status != ProductArchived
  }

  function AddStock(b: StockBooks, catalog: Catalog, p: ProductId, input: QuantityInput): Result<StockBooks, Error> {
    if !Stockable(catalog, p) then Failure(ProductNotFound)
    else
      match NormalizeStockQuantity(catalog[p].isBulk, input, false)
      case Failure(e) => Failure(e)
      case Success(quantity) =>
        var row := RowOf(b.inventory, p);
        var next := row.current + quantity;
        Success(b.(inventory := b.inventory[p := row.(current := Column(next),
                                                      totalIn := Column(row.totalIn + quantity))],
                   log := b.log + [StockMovement(p, StockIn, quantity, row.current, next, ByHand)]))
  }

  /** The stock is set; the difference goes to the counter of its sign. */
  function AdjustedRow(row: Inventory, next: int): Inventory {
    var difference := next - row.current;
    row.(current := Column(next),
         totalOut := if difference < 0 then Column(row.totalOut - difference) else row.totalOut,
         totalIn := if difference > 0 then Column(row.totalIn + difference) else row.totalIn)
  }

  function AdjustStock(b: StockBooks, catalog: Catalog, p: ProductId, input: QuantityInput): Result<StockBooks, Error> {
    if !Stockable(catalog, p) then Failure(ProductNotFound)
    else
      match NormalizeStockQuantity(catalog[p].isBulk, input, true)
      case Failure(e) => Failure(e)
      case Success(next) =>
        var row := RowOf(b.inventory, p);
        Success(b.(inventory := b.inventory[p := AdjustedRow(row, next)],
                   log := b.log + [StockMovement(p, Adjustment, next - row.current, row.current, next, ByAdjustment)]))
  }

  function WasteStock(b: StockBooks, catalog: Catalog, p: ProductId, input: QuantityInput): Result<StockBooks, Error> {
    if !Stockable(catalog, p) then Failure(ProductNotFound)
    else
      match NormalizeStockQuantity(catalog[p].isBulk, input, false)
      case Failure(e) => Failure(e)
      case Success(quantity) =>
        var row := RowOf(b.inventory, p);
        if quantity > row.current then Failure(InsufficientStock)
        else
          var next := row.current - quantity;
          var row' := row.(current := Column(next), lost := Column(row.lost + quantity),
                           totalOut := Column(row.totalOut + quantity));
          Success(b.(inventory := b.inventory[p := row'],
                     log := b.log + [StockMovement(p, Waste, -quantity, row.current, next, ByWaste)]))
  }

  // ----- sale lines -----

  datatype ToleranceAction = Block | RequireManagerConfirmation | AllowWithWarning

  datatype SaleSettings = SaleSettings(
    scaleEnabled: bool, scaleRequired: bool, maxWaste: nat, maxWastePercent: nat, toleranceAction: ToleranceAction,
    allowUnderWeight: bool, autoRegisterWaste: bool)

  datatype ItemRequest = ItemRequest(
    product: ProductId, quantity: Option<int>, quantityKg: Option<int>, quantityGrams: Option<int>,
    quantityUnits: Option<int>, amountEuros: Option<int>, actualWeight: Option<int>, scaleVerified: bool,
    hasOverrideReason: bool)

  function Amount(input: Option<int>): int {
    if input.Some? then input.value else 0
  }

  datatype Normalized = Normalized(quantity: nat, total: nat, mode: PricingMode, requestedAmount: Option<int>)

  function NormalizeSaleItem(item: ItemRequest, product: Product): Result<Normalized, Error> {
    if product.isBulk then
      if item.amountEuros.Some? then
        if item.amountEuros.value <= 0 then Failure(QuantityNotPositive)
        else if product.price == 0 then Failure(PriceNotPositive)
        else
          var amount := item.amountEuros.value;
          Success(Normalized(EurosToKg(amount, product.price), amount, ByAmount, Some(amount)))
      else
        var quantity := Amount(Either(item.quantityKg, Either(item.quantityGrams, item.quantity)));
        if quantity <= 0 then Failure(QuantityNotPositive)
        else Success(Normalized(quantity, KgToEuros(quantity, product.price), ByWeight, None))
    else
      var quantity := Amount(Either(item.quantityUnits, item.quantity));
      if quantity <= 0 then Failure(QuantityNotPositive)
      else Success(Normalized(quantity, RoundDiv(quantity * product.price, 1_000_000), ByUnit, None))
  }

  /** The largest waste a weighed line may have: a fixed weight or a share of the requested one. */
  function MaxAllowedWaste(requested: nat, settings: SaleSettings): int {
    Max(settings.maxWaste, RoundDiv(requested * settings.maxWastePercent, 10_000))
  }

  /** None: the line is not weighed. `requested` is what the customer asked for, `current` the stock. */
  function ResolveScaleData(item: ItemRequest, isBulk: bool, requested: nat, current: int, settings: SaleSettings,
                            canOverride: bool): (r: Result<Option<ScaleData>, Error>)
    ensures r.Success? && r.value.Some? ==>
              var d := r.value.value;
              && isBulk && settings.scaleEnabled && item.actualWeight == Some(d.actualWeight)
              && 0 < d.actualWeight <= current
              && d.actualWeight == requested + d.weightDifference
              && d.wasteQuantity == Max(d.weightDifference, 0)
              && (!settings.allowUnderWeight ==> d.weightDifference == d.wasteQuantity)
              && (settings.toleranceAction == Block ==> d.wasteQuantity <= MaxAllowedWaste(requested, settings))
              && (d.overridden ==> canOverride && item.hasOverrideReason)
    ensures r.Success? && r.value.None? ==>
              !isBulk || !settings.scaleEnabled || (item.actualWeight.None? && !settings.scaleRequired)
  {
    if !isBulk || !settings.scaleEnabled then Success(None)
    else if item.actualWeight.None? then
      if settings.scaleRequired then Failure(ScaleWeightRequired) else Success(None)
    else if item.actualWeight.value <= 0 then Failure(QuantityNotPositive)
    else if !item.scaleVerified then Failure(ScaleNotVerified)
    else
      var actual := item.actualWeight.value;
      var difference := actual - requested;
      if actual > current then Failure(InsufficientStock)
      else if difference < 0 && !settings.allowUnderWeight then Failure(UnderWeight)
      else
        var waste := Max(difference, 0);
        var exceeded := waste > MaxAllowedWaste(requested, settings);
        var confirm := settings.toleranceAction == RequireManagerConfirmation;
        if exceeded && settings.toleranceAction == Block then Failure(WasteAboveTolerance)
        else if exceeded && confirm && !canOverride then Failure(OverrideNotPermitted)
        else if exceeded && confirm && !item.hasOverrideReason then Failure(OverrideReasonRequired)
        else Success(Some(ScaleData(actual, difference, waste, exceeded, exceeded && confirm)))
  }

  /** The tables and rights a sale is made with. */
  datatype Counter = Counter(catalog: Catalog, settings: SaleSettings, canOverride: bool)

  /** What a requested item turns into, given its product's inventory row. */
  type Resolver = (ItemRequest, Option<Inventory>) -> Result<Line, Error>

  function ResolveItem(c: Counter, item: ItemRequest, row: Option<Inventory>): (r: Result<Line, Error>)
    ensures r.Success? ==>
              var line := r.value;
              && row.Some? && line.product == item.product && line.previous == row.value.current
              && 0 <= line.quantity && 0 <= line.total && 0 <= line.StockQuantity() <= line.previous
              && (line.scale.Some? ==> line.scale.value.weightDifference == line.Overweight()
                                       && line.WasteQuantity() == Max(line.Overweight(), 0))
              && (!c.settings.allowUnderWeight ==> 0 <= line.Overweight() == line.WasteQuantity())
  {
    if item.product !in c.catalog || c.catalog[item.product].status != ProductActive then Failure(ProductNotFound)
    else if row.None? then Failure(NoInventory)
    else
      var product, current := c.catalog[item.product], row.value.current;
      match NormalizeSaleItem(item, product)
      case Failure(e) => Failure(e)
      case Success(n) =>
        match ResolveScaleData(item, product.isBulk, n.quantity, current, c.settings, c.canOverride)
        case Failure(e) => Failure(e)
        case Success(scale) =>
          var line := Line(item.product, n.quantity, n.total, n.mode, n.requestedAmount, scale, current);
          if current < line.StockQuantity() then Failure(InsufficientStock) else Success(line)
  }

  function At(c: Counter): Resolver {
    (item: ItemRequest, row: Option<Inventory>) => ResolveItem(c, item, row)
  }

  function Lookup(inventory: map<ProductId, Inventory>, p: ProductId): Option<Inventory> {
    if p in inventory then Some(inventory[p]) else None
  }

  /** Every item against the same snapshot; the first refusal is the sale's. */
  function ResolveItems(inventory: map<ProductId, Inventory>, resolve: Resolver, items: seq<ItemRequest>)
    : Result<seq<Line>, Error>
  {
    if items == [] then Success([])
    else
      match ResolveItems(inventory, resolve, items[..|items| - 1])
      case Failure(e) => Failure(e)
      case Success(lines) =>
        var item := items[|items| - 1];
        match resolve(item, Lookup(inventory, item.product))
        case Failure(e) => Failure(e)
        case Success(line) => Success(lines + [line])
  }

  predicate DistinctProducts(items: seq<ItemRequest>) {
    forall i, j | 0 <= i < j < |items| :: items[i].product != items[j].product
  }

  function LineTotal(line: Line): int { line.total }

  // ----- posting the lines of a sale -----

  /** The row after a sale line: the quantity computed from the snapshot is written as it is. */
  function SoldRow(row: Inventory, line: Line): Inventory {
    row.(current := Column(line.previous - line.StockQuantity()),
         totalOut := Column(row.totalOut + line.StockQuantity()))
  }

  function LineFor(lines: seq<Line>, p: ProductId): (r: Option<Line>)
    ensures r.Some? ==> r.value in lines && r.value.product == p
    ensures r.None? ==> forall line <- lines :: line.product != p
  {
    if lines == [] then None
    else if lines[|lines| - 1].product == p then Some(lines[|lines| - 1])
    else LineFor(lines[..|lines| - 1], p)
  }

  /** Each product's row after the sale depends on its own line only. */
  function SoldInventory(inventory: map<ProductId, Inventory>, lines: seq<Line>): map<ProductId, Inventory> {
    map p | p in inventory ::
      if LineFor(lines, p).Some? then SoldRow(inventory[p], LineFor(lines, p).value) else inventory[p]
  }

  function SaleEntry(line: Line): StockMovement {
    StockMovement(line.product, SaleOut, -line.quantity, line.previous, line.previous - line.quantity, BySale)
  }

  function ScaleWasteEntry(line: Line): StockMovement {
    StockMovement(line.product, Waste, -line.WasteQuantity(), line.previous - line.quantity,
                  line.previous - line.StockQuantity(), ByScale)
  }

  function LineEntries(line: Line, autoWaste: bool): seq<StockMovement> {
    [SaleEntry(line)] + if line.WasteQuantity() > 0 && autoWaste then [ScaleWasteEntry(line)] else []
  }

  function SaleEntries(lines: seq<Line>, autoWaste: bool): seq<StockMovement> {
    if lines == [] then []
    else SaleEntries(lines[..|lines| - 1], autoWaste) + LineEntries(lines[|lines| - 1], autoWaste)
  }

  function ItemsOfSale(lines: seq<Line>, k: nat): seq<SaleItem> {
    if lines == [] then [] else ItemsOfSale(lines[..|lines| - 1], k) + [SaleItem(k, lines[|lines| - 1])]
  }

  function PostLines(b: StockBooks, k: nat, lines: seq<Line>, autoWaste: bool): StockBooks {
    StockBooks(SoldInventory(b.inventory, lines), b.log + SaleEntries(lines, autoWaste),
               b.items + ItemsOfSale(lines, k))
  }

  // ----- returning them -----

  /** The log entry of a return records no quantities around it. */
  function ReturnEntry(k: nat, line: Line): StockMovement {
    StockMovement(line.product, Return, line.quantity, 0, 0, ByCancellation(k))
  }

  /** The requested quantity goes back, as an increment. */
  function ReturnItem(b: StockBooks, k: nat, item: SaleItem): StockBooks {
    var p, quantity := item.line.product, item.line.quantity;
    b.(inventory := if p in b.inventory
         then b.inventory[p := b.inventory[p].(current := Column(b.inventory[p].current + quantity))]
         else b.inventory,
       log := b.log + [ReturnEntry(k, item.line)])
  }

  /** Returns the lines of sale `k` among the first `n` rows of the sale-line table. */
  function ReturnSale(b: StockBooks, k: nat, n: nat): StockBooks
    requires n <= |b.items|
    decreases n
  {
    if n == 0 then b
    else
      var rest := ReturnSale(b, k, n - 1);
      if b.items[n - 1].sale == k then ReturnItem(rest, k, b.items[n - 1]) else rest
  }
}
