/** The whole of a club's books, the transactions that change them, and runs of those transactions. */
module Club {
  import opened Prelude
  import opened CashLedger
  import opened StockLedger

  datatype Books = Books(cash: CashBooks, stock: StockBooks)

  const EMPTY_BOOKS := Books(EMPTY_CASH, EMPTY_STOCK)

  datatype MemberState = MemberMissing | MemberInactive | MemberActive

  datatype SaleRequest = SaleRequest(member: MemberState, items: seq<ItemRequest>, tender: Tender)

  function Posted(b: Books, session: nat, lines: seq<Line>, st: Settlement, autoWaste: bool): Books {
    Books(PostSale(b.cash, session, st), PostLines(b.stock, |b.cash.sales|, lines, autoWaste))
  }

  /** The session, lines and settlement of an accepted sale, or why it is refused. */
  function CheckSale(b: Books, user: UserId, c: Counter, request: SaleRequest)
    : Result<(nat, seq<Line>, Settlement), Error>
  {
    if request.items == [] || !ValidTender(request.tender) then Failure(InvalidInput)
    else
      match OpenSessionOf(b.cash.sessions, user)
      case None => Failure(NoOpenSession)
      case Some(session) =>
        if request.member.MemberMissing? then Failure(MemberNotFound)
        else if request.member.MemberInactive? then Failure(MemberNotActive)
        else if !DistinctProducts(request.items) then Failure(RepeatedProduct)
        else
          match ResolveItems(b.stock.inventory, At(c), request.items)
          case Failure(e) => Failure(e)
          case Success(lines) =>
            match Settle(SumBy(lines, LineTotal), request.tender)
            case Failure(e) => Failure(e)
            case Success(st) => Success((session, lines, st))
  }

  function CreateSale(b: Books, user: UserId, c: Counter, request: SaleRequest): Result<Books, Error> {
    match CheckSale(b, user, c, request)
    case Failure(e) => Failure(e)
    case Success((session, lines, st)) => Success(Posted(b, session, lines, st, c.settings.autoRegisterWaste))
  }

  function CancelSale(b: Books, k: nat): Result<Books, Error> {
    match CancelRefusal(b.cash, k)
    case Some(e) => Failure(e)
    case None => Success(Books(ReverseSale(b.cash, k), ReturnSale(b.stock, k, |b.stock.items|)))
  }

  datatype Step =
    | OpeningSession(user: UserId, openingCash: int)
    | ClosingSession(user: UserId, session: nat, closingCash: int, closeSettings: Option<CloseSettings>,
                     hasReason: bool)
    | Selling(user: UserId, counter: Counter, request: SaleRequest)
    | CancellingSale(sale: nat)
    | CreatingReceivable(memberExists: bool, amount: int)
    | PayingReceivable(user: UserId, receivable: nat, amount: int)
    | CancellingReceivable(receivable: nat)
    | PayingThirdParty(user: UserId, thirdPartyUsable: bool, amount: int)
    | CancellingPayout(payout: nat)
    | MovingCash(user: UserId, permissions: set<string>, kind: CashType, amount: int)
    | AddingStock(catalog: Catalog, product: ProductId, input: QuantityInput)
    | AdjustingStock(catalog: Catalog, product: ProductId, input: QuantityInput)
    | WastingStock(catalog: Catalog, product: ProductId, input: QuantityInput)

  function WithCash(b: Books, r: Result<CashBooks, Error>): Result<Books, Error> {
    match r
    case Success(cash) => Success(b.(cash := cash))
    case Failure(e) => Failure(e)
  }

  function WithStock(b: Books, r: Result<StockBooks, Error>): Result<Books, Error> {
    match r
    case Success(stock) => Success(b.(stock := stock))
    case Failure(e) => Failure(e)
  }

  function Perform(b: Books, step: Step): Result<Books, Error> {
    match step
    case OpeningSession(user, openingCash) => WithCash(b, OpenSession(b.cash, user, openingCash))
    case ClosingSession(user, session, closingCash, settings, hasReason) =>
      WithCash(b, CloseSession(b.cash, user, session, closingCash, settings, hasReason))
    case Selling(user, counter, request) => CreateSale(b, user, counter, request)
    case CancellingSale(sale) => CancelSale(b, sale)
    case CreatingReceivable(memberExists, amount) => WithCash(b, CreateReceivable(b.cash, memberExists, amount))
    case PayingReceivable(user, receivable, amount) => WithCash(b, PayReceivable(b.cash, user, receivable, amount))
    case CancellingReceivable(receivable) => WithCash(b, CancelReceivable(b.cash, receivable))
    case PayingThirdParty(user, usable, amount) => WithCash(b, PayThirdParty(b.cash, user, usable, amount))
    case CancellingPayout(payout) => WithCash(b, CancelPayout(b.cash, payout))
    case MovingCash(user, permissions, kind, amount) =>
      WithCash(b, AddMovement(b.cash, user, permissions, kind, amount))
    case AddingStock(catalog, product, input) => WithStock(b, AddStock(b.stock, catalog, product, input))
    case AdjustingStock(catalog, product, input) => WithStock(b, AdjustStock(b.stock, catalog, product, input))
    case WastingStock(catalog, product, input) => WithStock(b, WasteStock(b.stock, catalog, product, input))
  }

  /** A refused transaction is rolled back. */
  function Apply(b: Books, step: Step): Books {
    match Perform(b, step)
    case Success(b') => b'
    case Failure(_) => b
  }

  function Run(b: Books, steps: seq<Step>): Books {
    if steps == [] then b else Apply(Run(b, steps[..|steps| - 1]), steps[|steps| - 1])
  }
}
