/**
 The cash side of the club: till sessions, cash movements, sales, receivables, payments to third
 parties. Money is whole cents. A row's id is its position in its table. Each operation is the
 effect of one service transaction; it fails with the error the service raises.
 */
module CashLedger {
  import opened Prelude

  type UserId = string

  datatype Error =
    | InvalidInput
    | SessionAlreadyOpen
    | NoOpenSession
    | SessionNotFound
    | DiscrepancyNotAllowed
    | DiscrepancyReasonRequired
    | MemberNotFound
    | MemberNotActive
    | RepeatedProduct
    | ProductNotFound
    | NoInventory
    | QuantityNotPositive
    | PriceNotPositive
    | InsufficientStock
    | ScaleWeightRequired
    | ScaleNotVerified
    | UnderWeight
    | WasteAboveTolerance
    | OverrideNotPermitted
    | OverrideReasonRequired
    | DiscountAboveSubtotal
    | CashOnly
    | NegativeCash
    | AmountPaidOutOfRange
    | CreditReasonRequired
    | SaleNotFound
    | SaleAlreadyCancelled
    | SaleAlreadyRefunded
    | ReceivableNotFound
    | ReceivableNotPayable
    | AmountAbovePending
    | ReceivableNotCancellable
    | ThirdPartyNotFound
    | PaymentNotFound
    | PaymentNotCancellable
    | MovementTypeNotManual
    | MovementNotPermitted

  datatype CashType =
    | SaleCashIn | ReceivableCashIn | CashIn | CorrectionIn
    | ThirdPartyCashOut | Withdrawal | CashOut | Expense | CorrectionOut
    | Correction

  /** What the free-text reason of a movement records about where it comes from. */
  datatype Origin =
    | SaleContribution
    | SaleCancellation
    | Collection(receivable: nat)
    | ThirdPartyPayout(payment: nat)
    | ThirdPartyReversal(payment: nat)
    | Manual

  datatype CashMovement = CashMovement(session: nat, sale: Option<nat>, kind: CashType, amount: int, origin: Origin)

  datatype SessionStatus = Open | Closed
  datatype Closing = Closing(closingCash: int, expectedCash: int, difference: int)
  datatype Session = Session(openedBy: UserId, openingCash: int, status: SessionStatus, closing: Option<Closing>)

  datatype SaleStatus = Completed | Cancelled | Refunded | Pending
  datatype SettlementStatus = Paid | PartiallyPaid | Unpaid
  datatype SaleType = Standard | Credit | PartialCredit

  datatype Settlement = Settlement(
    subtotal: int, discount: int, total: int, cashReceived: int, amountPaid: int, changeDue: int, amountPending: int,
    status: SettlementStatus, saleType: SaleType)

  datatype Sale = Sale(session: nat, total: int, amountPaid: int, amountPending: int, settlement: SettlementStatus,
                       saleType: SaleType, status: SaleStatus)

  datatype ReceivableStatus = ReceivableOpen | ReceivablePartlyPaid | ReceivablePaid | ReceivableOverdue
    | ReceivableCancelled
  datatype Receivable = Receivable(sale: Option<nat>, original: int, paid: int, outstanding: int,
                                   status: ReceivableStatus)
  datatype Collected = Collected(receivable: nat, session: nat, amount: int)

  datatype PayoutStatus = PayoutPaid | PayoutCancelled
  datatype Payout = Payout(session: nat, amount: int, status: PayoutStatus)

  datatype CashBooks = CashBooks(
    sessions: seq<Session>,
    movements: seq<CashMovement>,
    sales: seq<Sale>,
    receivables: seq<Receivable>,
    collected: seq<Collected>,
    payouts: seq<Payout>)

  const EMPTY_CASH := CashBooks([], [], [], [], [], [])

  // ----- sums over movements -----

  predicate IsPositive(t: CashType) {
    t in {SaleCashIn, ReceivableCashIn, CashIn, CorrectionIn}
  }

  predicate IsNegative(t: CashType) {
    t in {ThirdPartyCashOut, Withdrawal, CashOut, Expense, CorrectionOut}
  }

  predicate IsManual(t: CashType) {
    t in {CashIn, Withdrawal, Expense, CorrectionIn, CorrectionOut}
  }

  function Signed(m: CashMovement): int {
    if IsNegative(m.kind) then -m.amount else if IsPositive(m.kind) then m.amount else 0
  }

  /** The cash a session should have moved, over all its movements. */
  function CashMoved(s: nat): CashMovement -> int {
    (m: CashMovement) => if m.session == s then Signed(m) else 0
  }

  function SessionCash(b: CashBooks, s: nat): int {
    SumBy(b.movements, CashMoved(s))
  }

  // ----- sessions -----

  predicate IsOpenFor(session: Session, user: UserId) {
    session.status == Open && session.openedBy == user
  }

  /** The user's open session: the newest one the query returns. */
  function OpenSessionOf(sessions: seq<Session>, user: UserId): (r: Option<nat>)
    ensures r.Some? ==> r.value < |sessions| && IsOpenFor(sessions[r.value], user)
    ensures r.None? ==> forall i | 0 <= i < |sessions| :: !IsOpenFor(sessions[i], user)
  {
    if sessions == [] then None
    else if IsOpenFor(sessions[|sessions| - 1], user) then Some(|sessions| - 1)
    else OpenSessionOf(sessions[..|sessions| - 1], user)
  }

  function OpenSession(b: CashBooks, user: UserId, openingCash: int): Result<CashBooks, Error> {
    if openingCash < 0 then Failure(InvalidInput)
    else if OpenSessionOf(b.sessions, user).Some? then Failure(SessionAlreadyOpen)
    else Success(b.(sessions := b.sessions + [Session(user, openingCash, Open, None)]))
  }

  datatype CloseSettings = CloseSettings(allowDiscrepancy: bool, requireReason: bool)

  function CloseSession(b: CashBooks, user: UserId, s: nat, closingCash: int, settings: Option<CloseSettings>,
                        hasReason: bool): Result<CashBooks, Error>
  {
    if closingCash < 0 then Failure(InvalidInput)
    else if s >= |b.sessions| || !IsOpenFor(b.sessions[s], user) then Failure(SessionNotFound)
    else
      var expectedCash := b.sessions[s].openingCash + SessionCash(b, s);
      var difference := closingCash - expectedCash;
      if difference != 0 && settings.Some? && !settings.value.allowDiscrepancy then Failure(DiscrepancyNotAllowed)
      else if difference != 0 && settings.Some? && settings.value.requireReason && !hasReason then
        Failure(DiscrepancyReasonRequired)
      else
        var closing := Closing(closingCash, expectedCash, difference);
        Success(b.(sessions := b.sessions[s := b.sessions[s].(status := Closed, closing := Some(closing))]))
  }

  // ----- sales -----

  datatype PaymentMethod = Cash | Card | Bizum | Transfer | Mixed
  datatype TenderedPayment = TenderedPayment(means: PaymentMethod, amount: int)

  /** How the sale request says it is paid. Absent fields are None. */
  datatype Tender = Tender(discount: Option<int>, cashReceived: Option<int>, amountPaid: Option<int>,
                           payments: Option<seq<TenderedPayment>>, hasCreditReason: bool)

  function TenderedAmount(p: TenderedPayment): int { p.amount }

  function Tendered(t: Tender, total: int): int {
    if t.cashReceived.Some? then t.cashReceived.value
    else if t.amountPaid.Some? then t.amountPaid.value
    else if t.payments.Some? then SumBy(t.payments.value, TenderedAmount)
    else total
  }

  /** The bounds the request body is validated against before the service sees it. */
  predicate ValidTender(t: Tender) {
    && (t.discount.Some? ==> 0 <= t.discount.value)
    && (t.cashReceived.Some? ==> 0 <= t.cashReceived.value)
    && (t.amountPaid.Some? ==> 0 <= t.amountPaid.value)
    && (t.payments.Some? ==> t.payments.value != [] && forall p <- t.payments.value :: 1 <= p.amount)
  }

  function SettlementStatusOf(amountPaid: int, total: int): SettlementStatus {
    if amountPaid <= 0 then Unpaid else if amountPaid < total then PartiallyPaid else Paid
  }

  function SaleTypeOf(amountPaid: int, total: int): SaleType {
    if amountPaid <= 0 then Credit else if amountPaid < total then PartialCredit else Standard
  }

  function Settle(subtotal: int, t: Tender): Result<Settlement, Error> {
    var discount := if t.discount.Some? then t.discount.value else 0;
    if discount > subtotal then Failure(DiscountAboveSubtotal)
    else
      var total := subtotal - discount;
      if t.payments.Some? && exists p <- t.payments.value :: p.means != Cash then Failure(CashOnly)
      else
        var cashReceived := Tendered(t, total);
        if cashReceived < 0 then Failure(NegativeCash)
        else
          var amountPaid := Min(cashReceived, total);
          var changeDue := Max(cashReceived - total, 0);
          var amountPending := Max(total - cashReceived, 0);
          if amountPaid < 0 || amountPaid > total then Failure(AmountPaidOutOfRange)
          else if amountPending > 0 && !t.hasCreditReason then Failure(CreditReasonRequired)
          else Success(Settlement(subtotal, discount, total, cashReceived, amountPaid, changeDue, amountPending,
                                  SettlementStatusOf(amountPaid, total), SaleTypeOf(amountPaid, total)))
  }

  function PostSale(b: CashBooks, session: nat, st: Settlement): CashBooks {
    var k := |b.sales|;
    b.(sales := b.sales + [Sale(session, st.total, st.amountPaid, st.amountPending, st.status, st.saleType, Completed)],
       movements := b.movements +
         if st.amountPaid > 0 then [CashMovement(session, Some(k), SaleCashIn, st.amountPaid, SaleContribution)]
         else [],
       receivables := b.receivables +
         if st.amountPending > 0 then [Receivable(Some(k), st.amountPending, 0, st.amountPending, ReceivableOpen)]
         else [])
  }

  function ReceivableOf(receivables: seq<Receivable>, k: nat): (r: Option<nat>)
    ensures r.Some? ==> r.value < |receivables| && receivables[r.value].sale == Some(k)
    ensures r.None? ==> forall i | 0 <= i < |receivables| :: receivables[i].sale != Some(k)
  {
    if receivables == [] then None
    else if receivables[|receivables| - 1].sale == Some(k) then Some(|receivables| - 1)
    else ReceivableOf(receivables[..|receivables| - 1], k)
  }

  predicate IsContribution(m: CashMovement, k: nat) {
    m.sale == Some(k) && m.kind == SaleCashIn
  }

  /** One outgoing correction, in the sale's own session, for each cash contribution of sale `k`. */
  function Corrections(movements: seq<CashMovement>, k: nat, session: nat): seq<CashMovement> {
    if movements == [] then []
    else
      var rest := Corrections(movements[..|movements| - 1], k, session);
      var m := movements[|movements| - 1];
      if IsContribution(m, k)
      then rest + [CashMovement(session, Some(k), CorrectionOut, m.amount, SaleCancellation)]
      else rest
  }

  function CancelReceivableOf(receivables: seq<Receivable>, k: nat): seq<Receivable> {
    match ReceivableOf(receivables, k)
    case None => receivables
    case Some(i) => receivables[i := receivables[i].(status := ReceivableCancelled)]
  }

  /** Why sale `k` cannot be cancelled, if it cannot. */
  function CancelRefusal(b: CashBooks, k: nat): Option<Error> {
    if k >= |b.sales| then Some(SaleNotFound)
    else if b.sales[k].status == Cancelled then Some(SaleAlreadyCancelled)
    else if b.sales[k].status == Refunded then Some(SaleAlreadyRefunded)
    else None
  }

  function ReverseSale(b: CashBooks, k: nat): CashBooks
    requires k < |b.sales|
  {
    b.(sales := b.sales[k := b.sales[k].(status := Cancelled)],
       receivables := CancelReceivableOf(b.receivables, k),
       movements := b.movements + Corrections(b.movements, k, b.sales[k].session))
  }

  // ----- receivables -----

  /** A hand-made receivable. The service puts no bound on `amount`. */
  function CreateReceivable(b: CashBooks, memberExists: bool, amount: int): Result<CashBooks, Error> {
    if !memberExists then Failure(MemberNotFound)
    else Success(b.(receivables := b.receivables + [Receivable(None, amount, 0, amount, ReceivableOpen)]))
  }

  predicate IsSettled(status: ReceivableStatus) {
    status == ReceivablePaid || status == ReceivableCancelled
  }

  function PayReceivable(b: CashBooks, user: UserId, r: nat, amount: int): Result<CashBooks, Error> {
    if amount < 1 then Failure(InvalidInput)
    else if r >= |b.receivables| then Failure(ReceivableNotFound)
    else
      var rec := b.receivables[r];
      if IsSettled(rec.status) then Failure(ReceivableNotPayable)
      else if amount > rec.outstanding then Failure(AmountAbovePending)
      else
        match OpenSessionOf(b.sessions, user)
        case None => Failure(NoOpenSession)
        case Some(s) =>
          var left := rec.outstanding - amount;
          var status := if left == 0 then ReceivablePaid else ReceivablePartlyPaid;
          Success(b.(
                  collected := b.collected + [Collected(r, s, amount)],
                  receivables := b.receivables[r := rec.(paid := rec.paid + amount, outstanding := left,
                                                         status := status)],
                  movements := b.movements + [CashMovement(s, None, ReceivableCashIn, amount, Collection(r))]))
  }

  function CancelReceivable(b: CashBooks, r: nat): Result<CashBooks, Error> {
    if r >= |b.receivables| then Failure(ReceivableNotFound)
    else if IsSettled(b.receivables[r].status) then Failure(ReceivableNotCancellable)
    else Success(b.(receivables := b.receivables[r := b.receivables[r].(status := ReceivableCancelled)]))
  }

  // ----- third parties -----

  /** `thirdPartyUsable` is false when the request names a third party that is missing or archived. */
  function PayThirdParty(b: CashBooks, user: UserId, thirdPartyUsable: bool, amount: int): Result<CashBooks, Error> {
    if amount < 1 then Failure(InvalidInput)
    else if !thirdPartyUsable then Failure(ThirdPartyNotFound)
    else
      match OpenSessionOf(b.sessions, user)
      case None => Failure(NoOpenSession)
      case Some(s) =>
        Success(b.(payouts := b.payouts + [Payout(s, amount, PayoutPaid)],
                   movements := b.movements +
                   [CashMovement(s, None, ThirdPartyCashOut, amount, ThirdPartyPayout(|b.payouts|))]))
  }

  function CancelPayout(b: CashBooks, i: nat): Result<CashBooks, Error> {
    if i >= |b.payouts| then Failure(PaymentNotFound)
    else if b.payouts[i].status != PayoutPaid then Failure(PaymentNotCancellable)
    else
      var p := b.payouts[i];
      Success(b.(movements := b.movements
                 + [CashMovement(p.session, None, CorrectionIn, p.amount, ThirdPartyReversal(i))],
                 payouts := b.payouts[i := p.(status := PayoutCancelled)]))
  }

  // ----- manual movements -----

  function RequiredPermission(kind: CashType): Option<string> {
    if kind == Withdrawal then Some("cash.withdraw")
    else if kind == Expense then Some("cash.expense")
    else if kind == CorrectionIn || kind == CorrectionOut then Some("cash.correction")
    else None
  }

  function AddMovement(b: CashBooks, user: UserId, permissions: set<string>, kind: CashType, amount: int)
    : Result<CashBooks, Error>
  {
    if amount < 1 then Failure(InvalidInput)
    else if !IsManual(kind) then Failure(MovementTypeNotManual)
    else
      var needed := RequiredPermission(kind);
      if needed.Some? && needed.value !in permissions then Failure(MovementNotPermitted)
      else
        match OpenSessionOf(b.sessions, user)
        case None => Failure(NoOpenSession)
        case Some(s) => Success(b.(movements := b.movements + [CashMovement(s, None, kind, amount, Manual)]))
  }
}
