/**
 What each cash operation does, told from its request and the tables before it: why it is refused, which rows it
 writes, and how much it moves in which till.
 */
module CashEffects {
  import opened Prelude
  import opened CashLedger
  import opened CashInvariants

  // ----- tills -----

  /** Session `s` is an open till of the user. */
  predicate TillOf(b: CashBooks, s: nat, user: UserId) {
    s < |b.sessions| && b.sessions[s].status == Open && b.sessions[s].openedBy == user
  }

  ghost predicate HasTill(b: CashBooks, user: UserId) {
    exists s: nat :: TillOf(b, s, user)
  }

  lemma TillIsFound(b: CashBooks, user: UserId)
    requires Valid(b)
    ensures HasTill(b, user) <==> OpenSessionOf(b.sessions, user).Some?
    ensures forall s: nat :: TillOf(b, s, user) <==> OpenSessionOf(b.sessions, user) == Some(s)
  {
    var found := OpenSessionOf(b.sessions, user);
    if found.Some? {
      assert TillOf(b, found.value, user);
    }
    forall s: nat | TillOf(b, s, user)
      ensures found == Some(s)
    {
      assert IsOpenFor(b.sessions[s], user);
    }
  }

  /** The cash of the user's till changed by `amount`, that of every other session not at all. */
  ghost predicate TillMoves(b: CashBooks, b': CashBooks, user: UserId, amount: int) {
    forall s: nat :: SessionCash(b', s) == SessionCash(b, s) + if TillOf(b, s, user) then amount else 0
  }

  ghost predicate SessionMoves(b: CashBooks, b': CashBooks, session: nat, amount: int) {
    forall s: nat :: SessionCash(b', s) == SessionCash(b, s) + if s == session then amount else 0
  }

  lemma OneMovement(b: CashBooks, b': CashBooks, m: CashMovement)
    requires b'.movements == b.movements + [m]
    ensures SessionMoves(b, b', m.session, Signed(m))
  {
    forall s: nat
      ensures SessionCash(b', s) == SessionCash(b, s) + if s == m.session then Signed(m) else 0
    {
      SumByAppend(b.movements, m, CashMoved(s));
    }
  }

  lemma MovesItsTill(b: CashBooks, b': CashBooks, user: UserId, session: nat, amount: int)
    requires Valid(b) && OpenSessionOf(b.sessions, user) == Some(session) && SessionMoves(b, b', session, amount)
    ensures HasTill(b, user) && TillMoves(b, b', user, amount)
  {
    TillIsFound(b, user);
  }

  // ----- opening and closing -----

  lemma OpeningMeans(b: CashBooks, user: UserId, openingCash: int)
    requires Valid(b)
    ensures
      match OpenSession(b, user, openingCash)
      case Failure(e) =>
        (e == InvalidInput && openingCash < 0) || (e == SessionAlreadyOpen && HasTill(b, user))
      case Success(b') =>
        && 0 <= openingCash && !HasTill(b, user)
        && TillOf(b', |b.sessions|, user) && b'.sessions[|b.sessions|].openingCash == openingCash
        && b' == b.(sessions := b.sessions + [b'.sessions[|b.sessions|]])
  {
    TillIsFound(b, user);
  }

  /** A difference is allowed by the settings, and has a reason where they want one. */
  predicate DifferenceAllowed(settings: Option<CloseSettings>, hasReason: bool) {
    settings.Some? ==> settings.value.allowDiscrepancy && (settings.value.requireReason ==> hasReason)
  }

  /** What should be in the till: its opening cash and all that moved since. */
  function ShouldHold(b: CashBooks, s: nat): int
    requires s < |b.sessions|
  {
    b.sessions[s].openingCash + SessionCash(b, s)
  }

  /** Session `s` is closed with a record of what was counted, what should be there, and the difference. */
  predicate ClosedWith(b: CashBooks, s: nat, counted: int, expected: int) {
    s < |b.sessions| && b.sessions[s].status == Closed
    && b.sessions[s].closing == Some(Closing(counted, expected, counted - expected))
  }

  lemma ClosingMeans(b: CashBooks, user: UserId, s: nat, counted: int, settings: Option<CloseSettings>, hasReason: bool)
    ensures
      match CloseSession(b, user, s, counted, settings, hasReason)
      case Failure(e) =>
        || (e == InvalidInput && counted < 0)
        || (e == SessionNotFound && !TillOf(b, s, user))
        || (TillOf(b, s, user) && counted != ShouldHold(b, s) && !DifferenceAllowed(settings, hasReason)
            && e == if settings.value.allowDiscrepancy then DiscrepancyReasonRequired else DiscrepancyNotAllowed)
      case Success(b') =>
        && 0 <= counted && TillOf(b, s, user)
        && (counted == ShouldHold(b, s) || DifferenceAllowed(settings, hasReason))
        && ClosedWith(b', s, counted, ShouldHold(b, s))
        && b'.sessions[s].openedBy == user && b'.sessions[s].openingCash == b.sessions[s].openingCash
        && b' == b.(sessions := b.sessions[s := b'.sessions[s]])
  {
  }

  // ----- receivables -----

  lemma CreatingReceivableMeans(b: CashBooks, memberExists: bool, amount: int)
    ensures
      match CreateReceivable(b, memberExists, amount)
      case Failure(e) => e == MemberNotFound && !memberExists
      case Success(b') =>
        && memberExists && b' == b.(receivables := b.receivables + [b'.receivables[|b.receivables|]])
        && (var rec := b'.receivables[|b.receivables|];
            rec.sale.None? && rec.original == amount == rec.outstanding && rec.paid == 0
              && rec.status == ReceivableOpen)
  {
  }

  predicate CanBePaid(b: CashBooks, r: nat) {
    r < |b.receivables| && b.receivables[r].status in {ReceivableOpen, ReceivablePartlyPaid, ReceivableOverdue}
  }

  lemma PayingMeans(b: CashBooks, user: UserId, r: nat, amount: int)
    requires Valid(b)
    ensures
      match PayReceivable(b, user, r, amount)
      case Failure(e) =>
        || (e == InvalidInput && amount < 1)
        || (e == ReceivableNotFound && |b.receivables| <= r)
        || (e == ReceivableNotPayable && r < |b.receivables| && !CanBePaid(b, r))
        || (e == AmountAbovePending && r < |b.receivables| && b.receivables[r].outstanding < amount)
        || (e == NoOpenSession && !HasTill(b, user))
      case Success(b') =>
        && CanBePaid(b, r) && 1 <= amount <= b.receivables[r].outstanding && HasTill(b, user)
        && TillMoves(b, b', user, amount)
        && (var was, rec := b.receivables[r], b'.receivables[r];
            && rec.outstanding == was.outstanding - amount && rec.paid == was.paid + amount
            && rec.original == was.original && rec.sale == was.sale
            && rec.status == (if amount == was.outstanding then ReceivablePaid else ReceivablePartlyPaid)
            && b'.receivables == b.receivables[r := rec])
        && |b'.collected| == |b.collected| + 1 && b'.collected[..|b.collected|] == b.collected
        && b'.collected[|b.collected|].receivable == r && b'.collected[|b.collected|].amount == amount
        && TillOf(b, b'.collected[|b.collected|].session, user)
        && b' == b.(receivables := b'.receivables, collected := b'.collected, movements := b'.movements)
  {
    TillIsFound(b, user);
    if PayReceivable(b, user, r, amount).Success? {
      var b', s := PayReceivable(b, user, r, amount).value, OpenSessionOf(b.sessions, user).value;
      OneMovement(b, b', CashMovement(s, None, ReceivableCashIn, amount, Collection(r)));
      MovesItsTill(b, b', user, s, amount);
    }
  }

  lemma CancellingReceivableMeans(b: CashBooks, r: nat)
    ensures
      match CancelReceivable(b, r)
      case Failure(e) =>
        || (e == ReceivableNotFound && |b.receivables| <= r)
        || (e == ReceivableNotCancellable && r < |b.receivables| && !CanBePaid(b, r))
      case Success(b') =>
        && CanBePaid(b, r)
        && b' == b.(receivables := b.receivables[r := b.receivables[r].(status := ReceivableCancelled)])
  {
  }

  // ----- third parties -----

  lemma PayingOutMeans(b: CashBooks, user: UserId, usable: bool, amount: int)
    requires Valid(b)
    ensures
      match PayThirdParty(b, user, usable, amount)
      case Failure(e) =>
        || (e == InvalidInput && amount < 1)
        || (e == ThirdPartyNotFound && !usable)
        || (e == NoOpenSession && !HasTill(b, user))
      case Success(b') =>
        && 1 <= amount && usable && HasTill(b, user) && TillMoves(b, b', user, -amount)
        && b' == b.(payouts := b.payouts + [b'.payouts[|b.payouts|]], movements := b'.movements)
        && (var payout := b'.payouts[|b.payouts|];
            payout.amount == amount && payout.status == PayoutPaid && TillOf(b, payout.session, user))
  {
    TillIsFound(b, user);
    if PayThirdParty(b, user, usable, amount).Success? {
      var b', s := PayThirdParty(b, user, usable, amount).value, OpenSessionOf(b.sessions, user).value;
      OneMovement(b, b', CashMovement(s, None, ThirdPartyCashOut, amount, ThirdPartyPayout(|b.payouts|)));
      MovesItsTill(b, b', user, s, -amount);
    }
  }

  lemma CancellingPayoutMeans(b: CashBooks, i: nat)
    ensures
      match CancelPayout(b, i)
      case Failure(e) =>
        || (e == PaymentNotFound && |b.payouts| <= i)
        || (e == PaymentNotCancellable && i < |b.payouts| && b.payouts[i].status == PayoutCancelled)
      case Success(b') =>
        && i < |b.payouts| && b.payouts[i].status == PayoutPaid
        && SessionMoves(b, b', b.payouts[i].session, b.payouts[i].amount)
        && b' == b.(payouts := b.payouts[i := b.payouts[i].(status := PayoutCancelled)], movements := b'.movements)
  {
    if CancelPayout(b, i).Success? {
      var b', p := CancelPayout(b, i).value, b.payouts[i];
      OneMovement(b, b', CashMovement(p.session, None, CorrectionIn, p.amount, ThirdPartyReversal(i)));
    }
  }

  // ----- manual movements -----

  /** The permission that a manual movement of this type asks for. */
  predicate MayMove(kind: CashType, permissions: set<string>) {
    && (kind == Withdrawal ==> "cash.withdraw" in permissions)
    && (kind == Expense ==> "cash.expense" in permissions)
    && (kind == CorrectionIn ==> "cash.correction" in permissions)
    && (kind == CorrectionOut ==> "cash.correction" in permissions)
  }

  lemma MovingMeans(b: CashBooks, user: UserId, permissions: set<string>, kind: CashType, amount: int)
    requires Valid(b)
    ensures
      match AddMovement(b, user, permissions, kind, amount)
      case Failure(e) =>
        || (e == InvalidInput && amount < 1)
        || (e == MovementTypeNotManual && kind !in {CashIn, CorrectionIn, Withdrawal, Expense, CorrectionOut})
        || (e == MovementNotPermitted && !MayMove(kind, permissions))
        || (e == NoOpenSession && !HasTill(b, user))
      case Success(b') =>
        && 1 <= amount && kind in {CashIn, CorrectionIn, Withdrawal, Expense, CorrectionOut}
        && MayMove(kind, permissions) && HasTill(b, user)
        && TillMoves(b, b', user, if kind in {CashIn, CorrectionIn} then amount else -amount)
        && b' == b.(movements := b.movements + [b'.movements[|b.movements|]])
        && b'.movements[|b.movements|].kind == kind && b'.movements[|b.movements|].amount == amount
  {
    TillIsFound(b, user);
    if AddMovement(b, user, permissions, kind, amount).Success? {
      var b', s := AddMovement(b, user, permissions, kind, amount).value, OpenSessionOf(b.sessions, user).value;
      OneMovement(b, b', b'.movements[|b.movements|]);
      MovesItsTill(b, b', user, s, if kind in {CashIn, CorrectionIn} then amount else -amount);
    }
  }
}
