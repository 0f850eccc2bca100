/** What every cash operation keeps: movements reconcile with documents, session by session. */
module CashInvariants {
  import opened Prelude
  import opened CashLedger

  // ----- what the documents say -----

  function ManualIn(s: nat): CashMovement -> int {
    (m: CashMovement) => if m.session == s && m.origin == Manual then Signed(m) else 0
  }

  function SalesKept(s: nat): Sale -> int {
    (sale: Sale) => if sale.session == s && sale.status != Cancelled then sale.amountPaid else 0
  }

  function SalesUndone(s: nat): Sale -> int {
    (sale: Sale) => if sale.session == s && sale.status == Cancelled then sale.amountPaid else 0
  }

  function CollectedIn(s: nat): Collected -> int {
    (c: Collected) => if c.session == s then c.amount else 0
  }

  function PayoutsKept(s: nat): Payout -> int {
    (p: Payout) => if p.session == s && p.status == PayoutPaid then p.amount else 0
  }

  function PayoutsUndone(s: nat): Payout -> int {
    (p: Payout) => if p.session == s && p.status == PayoutCancelled then p.amount else 0
  }

  /** The cash that the live documents of session `s` account for. */
  function DocumentCash(b: CashBooks, s: nat): int {
    SumBy(b.sales, SalesKept(s)) + SumBy(b.collected, CollectedIn(s))
    - SumBy(b.payouts, PayoutsKept(s)) + SumBy(b.movements, ManualIn(s))
  }

  function ContributionsTo(k: nat): CashMovement -> int {
    (m: CashMovement) => if IsContribution(m, k) then m.amount else 0
  }

  function CashOfSale(k: nat): CashMovement -> int {
    (m: CashMovement) => if m.sale == Some(k) then Signed(m) else 0
  }

  function CollectedOn(r: nat): Collected -> int {
    (c: Collected) => if c.receivable == r then c.amount else 0
  }

  // ----- the invariant -----

  ghost predicate OneOpenPerUser(sessions: seq<Session>) {
    forall i, j | 0 <= i < j < |sessions| && sessions[i].status == Open && sessions[j].status == Open ::
      sessions[i].openedBy != sessions[j].openedBy
  }

  predicate ClosingExact(session: Session) {
    && (session.status == Open <==> session.closing.None?)
    && (session.closing.Some? ==> session.closing.value.difference
                                  == session.closing.value.closingCash - session.closing.value.expectedCash)
  }

  ghost predicate Reconciled(b: CashBooks) {
    forall s: nat :: SessionCash(b, s) == DocumentCash(b, s)
  }

  predicate SaleSettled(sale: Sale) {
    && sale.total == sale.amountPaid + sale.amountPending
    && 0 <= sale.amountPaid && 0 <= sale.amountPending
    && (sale.settlement == Paid <==> sale.amountPending == 0 && sale.amountPaid > 0)
    && (sale.settlement == Unpaid <==> sale.amountPaid == 0)
    && (sale.saleType == Standard <==> sale.settlement == Paid)
    && (sale.saleType == Credit <==> sale.settlement == Unpaid)
  }

  /** Net of its corrections, a sale's movements hold its cash exactly while it is not cancelled. */
  predicate SaleTraced(movements: seq<CashMovement>, sales: seq<Sale>, k: nat) {
    && SumBy(movements, ContributionsTo(k)) == (if k < |sales| then sales[k].amountPaid else 0)
    && SumBy(movements, CashOfSale(k))
       == (if k < |sales| && sales[k].status != Cancelled then sales[k].amountPaid else 0)
  }

  ghost predicate SalesTraced(b: CashBooks) {
    forall k: nat :: SaleTraced(b.movements, b.sales, k)
  }

  predicate ReceivableBalanced(r: Receivable) {
    && r.original == r.paid + r.outstanding
    && 0 <= r.paid
    && (0 <= r.original ==> 0 <= r.outstanding)
    && (r.original < 0 ==> r.paid == 0)
    && (r.status == ReceivableOpen ==> r.paid == 0)
    && (r.status == ReceivablePartlyPaid ==> 0 < r.paid && 0 < r.outstanding)
    && (r.status == ReceivablePaid ==> 0 < r.paid && r.outstanding == 0)
    && r.status != ReceivableOverdue
  }

  predicate PaymentTraced(collected: seq<Collected>, receivables: seq<Receivable>, r: nat) {
    SumBy(collected, CollectedOn(r)) == if r < |receivables| then receivables[r].paid else 0
  }

  ghost predicate PaymentsTraced(b: CashBooks) {
    forall r: nat :: PaymentTraced(b.collected, b.receivables, r)
  }

  ghost predicate OneReceivablePerSale(receivables: seq<Receivable>) {
    forall i, j | 0 <= i < j < |receivables| && receivables[i].sale.Some? ::
      receivables[i].sale != receivables[j].sale
  }

  /** A credit sale and its receivable: same amount, and a cancelled sale has a cancelled receivable. */
  predicate MatchesSale(r: Receivable, sales: seq<Sale>) {
    r.sale.Some? ==>
      && r.sale.value < |sales|
      && 0 < r.original == sales[r.sale.value].amountPending
      && (sales[r.sale.value].status == Cancelled ==> r.status == ReceivableCancelled)
  }

  ghost predicate CreditsLinked(b: CashBooks) {
    && (forall i | 0 <= i < |b.receivables| :: MatchesSale(b.receivables[i], b.sales))
    && (forall k | 0 <= k < |b.sales| && b.sales[k].amountPending > 0 :: ReceivableOf(b.receivables, k).Some?)
  }

  ghost predicate Valid(b: CashBooks) {
    && OneOpenPerUser(b.sessions)
    && (forall s | 0 <= s < |b.sessions| :: ClosingExact(b.sessions[s]))
    && Reconciled(b)
    && (forall k | 0 <= k < |b.sales| :: SaleSettled(b.sales[k]))
    && SalesTraced(b)
    && (forall r | 0 <= r < |b.receivables| :: ReceivableBalanced(b.receivables[r]))
    && PaymentsTraced(b)
    && OneReceivablePerSale(b.receivables)
    && CreditsLinked(b)
    && (forall c <- b.collected :: 1 <= c.amount)
  }

  // ----- settling -----

  /** Every accepted settlement: the money adds up, and the status says which part is missing. */
  lemma SettleAddsUp(subtotal: int, t: Tender)
    requires 0 <= subtotal && (t.discount.Some? ==> 0 <= t.discount.value)
    ensures Settle(subtotal, t).Success? ==>
              var st := Settle(subtotal, t).value;
              && 0 <= st.amountPaid && 0 <= st.amountPending && 0 <= st.changeDue
              && st.total == subtotal - st.discount == st.amountPaid + st.amountPending
              && st.cashReceived == st.amountPaid + st.changeDue
              && (st.amountPending == 0 || st.changeDue == 0)
              && (st.amountPending > 0 ==> t.hasCreditReason)
              && SaleSettled(Sale(0, st.total, st.amountPaid, st.amountPending, st.status, st.saleType, Completed))
  {
  }

  /** A fully discounted sale settles as an unpaid credit with nothing pending. */
  lemma FreeSaleIsUnpaidCredit(subtotal: nat, t: Tender)
    requires t.discount == Some(subtotal) && t.payments.None? && ValidTender(t)
    ensures Settle(subtotal, t).Success?
    ensures Settle(subtotal, t).value.status == Unpaid && Settle(subtotal, t).value.saleType == Credit
    ensures Settle(subtotal, t).value.amountPending == 0
  {
  }

  // ----- each operation keeps the invariant -----

  lemma EmptyIsValid()
    ensures Valid(EMPTY_CASH)
  {
  }

  lemma OpenSessionKeeps(b: CashBooks, user: UserId, openingCash: int)
    requires Valid(b) && OpenSession(b, user, openingCash).Success?
    ensures Valid(OpenSession(b, user, openingCash).value)
  {
    var b' := OpenSession(b, user, openingCash).value;
    assert forall s: nat :: SessionCash(b', s) == SessionCash(b, s) && DocumentCash(b', s) == DocumentCash(b, s);
  }

  lemma CloseSessionKeeps(b: CashBooks, user: UserId, s: nat, closingCash: int, settings: Option<CloseSettings>,
                          why: bool)
    requires Valid(b) && CloseSession(b, user, s, closingCash, settings, why).Success?
    ensures Valid(CloseSession(b, user, s, closingCash, settings, why).value)
  {
    var b' := CloseSession(b, user, s, closingCash, settings, why).value;
    assert forall t: nat :: SessionCash(b', t) == SessionCash(b, t) && DocumentCash(b', t) == DocumentCash(b, t);
  }

  /** How one more movement changes every total taken over movements. */
  lemma MovementAdds(movements: seq<CashMovement>, m: CashMovement, n: nat)
    ensures SumBy(movements + [m], CashMoved(n)) == SumBy(movements, CashMoved(n)) + CashMoved(n)(m)
    ensures SumBy(movements + [m], ManualIn(n)) == SumBy(movements, ManualIn(n)) + ManualIn(n)(m)
    ensures SumBy(movements + [m], ContributionsTo(n)) == SumBy(movements, ContributionsTo(n)) + ContributionsTo(n)(m)
    ensures SumBy(movements + [m], CashOfSale(n)) == SumBy(movements, CashOfSale(n)) + CashOfSale(n)(m)
  {
    SumByAppend(movements, m, CashMoved(n));
    SumByAppend(movements, m, ManualIn(n));
    SumByAppend(movements, m, ContributionsTo(n));
    SumByAppend(movements, m, CashOfSale(n));
  }

  lemma ReceivableFound(receivables: seq<Receivable>, i: nat, k: nat)
    requires i < |receivables| && receivables[i].sale == Some(k)
    ensures ReceivableOf(receivables, k).Some?
  {
  }

  lemma PostSaleReconciles(b: CashBooks, session: nat, st: Settlement, n: nat)
    requires SessionCash(b, n) == DocumentCash(b, n) && 0 <= st.amountPaid
    ensures SessionCash(PostSale(b, session, st), n) == DocumentCash(PostSale(b, session, st), n)
  {
    var b' := PostSale(b, session, st);
    SumByAppend(b.sales, b'.sales[|b.sales|], SalesKept(n));
    ContributionAdds(b.movements, session, |b.sales|, st.amountPaid, n);
    assert b'.movements == b.movements + Contribution(session, |b.sales|, st.amountPaid);
  }

  lemma PostSaleTraces(b: CashBooks, session: nat, st: Settlement, n: nat)
    requires SaleTraced(b.movements, b.sales, n) && 0 <= st.amountPaid
    ensures SaleTraced(PostSale(b, session, st).movements, PostSale(b, session, st).sales, n)
  {
    ContributionAdds(b.movements, session, |b.sales|, st.amountPaid, n);
    assert PostSale(b, session, st).movements == b.movements + Contribution(session, |b.sales|, st.amountPaid);
  }

  /** The cash movement of sale `k`, if it was paid anything. */
  function Contribution(session: nat, k: nat, paid: int): seq<CashMovement> {
    if paid > 0 then [CashMovement(session, Some(k), SaleCashIn, paid, SaleContribution)] else []
  }

  lemma ContributionAdds(movements: seq<CashMovement>, session: nat, k: nat, paid: nat, n: nat)
    ensures
      var after := movements + Contribution(session, k, paid);
      && SumBy(after, CashMoved(n)) == SumBy(movements, CashMoved(n)) + (if n == session then paid else 0)
      && SumBy(after, ManualIn(n)) == SumBy(movements, ManualIn(n))
      && SumBy(after, ContributionsTo(n)) == SumBy(movements, ContributionsTo(n)) + (if n == k then paid else 0)
      && SumBy(after, CashOfSale(n)) == SumBy(movements, CashOfSale(n)) + (if n == k then paid else 0)
  {
    if paid > 0 {
      var m := CashMovement(session, Some(k), SaleCashIn, paid, SaleContribution);
      MovementAdds(movements, m, n);
      assert movements + Contribution(session, k, paid) == movements + [m];
    } else {
      assert movements + Contribution(session, k, paid) == movements;
    }
  }

  lemma PostSaleKeeps(b: CashBooks, session: nat, st: Settlement)
    requires Valid(b)
    requires SaleSettled(Sale(session, st.total, st.amountPaid, st.amountPending, st.status, st.saleType, Completed))
    ensures Valid(PostSale(b, session, st))
  {
    var b' := PostSale(b, session, st);
    var k := |b.sales|;
    var sale := b'.sales[k];
    forall n: nat
      ensures SessionCash(b', n) == DocumentCash(b', n) && SaleTraced(b'.movements, b'.sales, n)
    {
      assert SessionCash(b, n) == DocumentCash(b, n) && SaleTraced(b.movements, b.sales, n);
      PostSaleReconciles(b, session, st, n);
      PostSaleTraces(b, session, st, n);
    }
    assert forall j | 0 <= j < k :: b'.sales[j] == b.sales[j];
    PostSaleKeepsCredits(b, session, st);
    assert PaymentsTraced(b') by {
      assert forall r: nat ::
          PaymentTraced(b.collected, b'.receivables, r) ==> PaymentTraced(b'.collected, b'.receivables, r);
    }
  }

  lemma PostSaleKeepsCredits(b: CashBooks, session: nat, st: Settlement)
    requires Valid(b) && 0 <= st.amountPending
    ensures OneReceivablePerSale(PostSale(b, session, st).receivables)
    ensures CreditsLinked(PostSale(b, session, st))
    ensures PaymentsTraced(b.(receivables := PostSale(b, session, st).receivables))
  {
    var rs, rs', sales' := b.receivables, PostSale(b, session, st).receivables, PostSale(b, session, st).sales;
    assert forall i | 0 <= i < |rs| :: rs'[i] == rs[i];
    assert forall k | 0 <= k < |b.sales| :: sales'[k] == b.sales[k];
    forall k | 0 <= k < |sales'| && sales'[k].amountPending > 0
      ensures ReceivableOf(rs', k).Some?
    {
      ReceivableFound(rs', if k < |b.sales| then ReceivableOf(rs, k).value else |rs|, k);
    }
    forall i | 0 <= i < |rs'|
      ensures MatchesSale(rs'[i], sales')
    {
      assert i < |rs| ==> MatchesSale(rs[i], b.sales);
    }
    UnpaidTraced(b, rs');
  }

  /** Receivables that nothing was paid on may be appended. */
  lemma UnpaidTraced(b: CashBooks, rs: seq<Receivable>)
    requires PaymentsTraced(b) && b.receivables <= rs && forall i | |b.receivables| <= i < |rs| :: rs[i].paid == 0
    ensures PaymentsTraced(b.(receivables := rs))
  {
    forall r: nat
      ensures PaymentTraced(b.collected, rs, r)
    {
      assert PaymentTraced(b.collected, b.receivables, r);
    }
  }

  /** The corrections of sale `k` take back, in its session, what its contributions put in. */
  lemma {:induction false} CorrectionsUndo(movements: seq<CashMovement>, k: nat, session: nat, n: nat)
    ensures
      var cs := Corrections(movements, k, session);
      && SumBy(cs, CashMoved(n)) == (if n == session then -SumBy(movements, ContributionsTo(k)) else 0)
      && SumBy(cs, ManualIn(n)) == 0
      && SumBy(cs, ContributionsTo(n)) == 0
      && SumBy(cs, CashOfSale(n)) == (if n == k then -SumBy(movements, ContributionsTo(k)) else 0)
  {
    if movements != [] {
      var init, m := movements[..|movements| - 1], movements[|movements| - 1];
      CorrectionsUndo(init, k, session, n);
      if IsContribution(m, k) {
        var c := CashMovement(session, Some(k), CorrectionOut, m.amount, SaleCancellation);
        MovementAdds(Corrections(init, k, session), c, n);
      }
    }
  }

  lemma ReverseSaleKeeps(b: CashBooks, k: nat)
    requires Valid(b) && CancelRefusal(b, k).None?
    ensures Valid(ReverseSale(b, k))
  {
    var b' := ReverseSale(b, k);
    var session := b.sales[k].session;
    var cs := Corrections(b.movements, k, session);
    assert SaleTraced(b.movements, b.sales, k);
    forall n: nat
      ensures SessionCash(b', n) == DocumentCash(b', n) && SaleTraced(b'.movements, b'.sales, n)
    {
      assert SessionCash(b, n) == DocumentCash(b, n) && SaleTraced(b.movements, b.sales, n);
      CorrectionsUndo(b.movements, k, session, n);
      SumByConcat(b.movements, cs, CashMoved(n));
      SumByConcat(b.movements, cs, ManualIn(n));
      SumByConcat(b.movements, cs, ContributionsTo(n));
      SumByConcat(b.movements, cs, CashOfSale(n));
      SumByUpdate(b.sales, k, b'.sales[k], SalesKept(n));
    }
    ReverseSaleKeepsCredits(b, k);
  }

  lemma ReverseSaleKeepsCredits(b: CashBooks, k: nat)
    requires Valid(b) && CancelRefusal(b, k).None?
    ensures
      var b' := ReverseSale(b, k);
      && (forall r | 0 <= r < |b'.receivables| :: ReceivableBalanced(b'.receivables[r]))
      && OneReceivablePerSale(b'.receivables) && CreditsLinked(b') && PaymentsTraced(b')
  {
    var b' := ReverseSale(b, k);
    assert forall i | 0 <= i < |b.receivables| ::
        b'.receivables[i].sale == b.receivables[i].sale && b'.receivables[i].paid == b.receivables[i].paid;
    forall r: nat
      ensures PaymentTraced(b'.collected, b'.receivables, r)
    {
      assert PaymentTraced(b.collected, b.receivables, r);
    }
    forall i | 0 <= i < |b'.receivables|
      ensures MatchesSale(b'.receivables[i], b'.sales)
    {
      if b.receivables[i].sale == Some(k) { ReceivableFound(b.receivables, i, k); }
    }
    forall j | 0 <= j < |b'.sales| && b'.sales[j].amountPending > 0
      ensures ReceivableOf(b'.receivables, j).Some?
    {
      ReceivableFound(b'.receivables, ReceivableOf(b.receivables, j).value, j);
    }
  }

  lemma CreateReceivableKeeps(b: CashBooks, memberExists: bool, amount: int)
    requires Valid(b) && CreateReceivable(b, memberExists, amount).Success?
    ensures Valid(CreateReceivable(b, memberExists, amount).value)
  {
    var b' := CreateReceivable(b, memberExists, amount).value;
    assert forall s: nat :: SessionCash(b', s) == SessionCash(b, s) && DocumentCash(b', s) == DocumentCash(b, s);
    assert forall i | 0 <= i < |b.receivables| :: b'.receivables[i] == b.receivables[i];
    forall k | 0 <= k < |b.sales| && b.sales[k].amountPending > 0
      ensures ReceivableOf(b'.receivables, k).Some?
    {
      ReceivableFound(b'.receivables, ReceivableOf(b.receivables, k).value, k);
    }
    forall r: nat
      ensures PaymentTraced(b'.collected, b'.receivables, r)
    {
      assert PaymentTraced(b.collected, b.receivables, r);
    }
  }

  /** Replacing a receivable by one for the same sale and amount leaves the links as they were. */
  lemma ReceivableReplaced(b: CashBooks, r: nat, rec: Receivable)
    requires CreditsLinked(b) && OneReceivablePerSale(b.receivables) && r < |b.receivables|
    requires rec.sale == b.receivables[r].sale && rec.original == b.receivables[r].original
    requires b.receivables[r].status == ReceivableCancelled ==> rec.status == ReceivableCancelled
    ensures OneReceivablePerSale(b.receivables[r := rec])
    ensures CreditsLinked(b.(receivables := b.receivables[r := rec]))
  {
    var b' := b.(receivables := b.receivables[r := rec]);
    forall k | 0 <= k < |b.sales| && b.sales[k].amountPending > 0
      ensures ReceivableOf(b'.receivables, k).Some?
    {
      ReceivableFound(b'.receivables, ReceivableOf(b.receivables, k).value, k);
    }
  }

  lemma PayReceivableKeeps(b: CashBooks, user: UserId, r: nat, amount: int)
    requires Valid(b) && PayReceivable(b, user, r, amount).Success?
    ensures Valid(PayReceivable(b, user, r, amount).value)
  {
    var b' := PayReceivable(b, user, r, amount).value;
    var c := b'.collected[|b.collected|];
    forall n: nat
      ensures SessionCash(b', n) == DocumentCash(b', n) && SaleTraced(b'.movements, b'.sales, n)
    {
      assert SessionCash(b, n) == DocumentCash(b, n) && SaleTraced(b.movements, b.sales, n);
      CollectionReconciles(b, b', r, c, n);
    }
    forall n: nat
      ensures PaymentTraced(b'.collected, b'.receivables, n)
    {
      CollectionTraced(b, r, c, b'.receivables[r], n);
    }
    ReceivableReplaced(b, r, b'.receivables[r]);
    assert CreditsLinked(b.(receivables := b'.receivables));
  }

  lemma CollectionReconciles(b: CashBooks, b': CashBooks, r: nat, c: Collected, n: nat)
    requires SessionCash(b, n) == DocumentCash(b, n) && SaleTraced(b.movements, b.sales, n)
    requires b'.sales == b.sales && b'.payouts == b.payouts && b'.collected == b.collected + [c]
    requires b'.movements == b.movements + [CashMovement(c.session, None, ReceivableCashIn, c.amount, Collection(r))]
    ensures SessionCash(b', n) == DocumentCash(b', n) && SaleTraced(b'.movements, b'.sales, n)
  {
    MovementAdds(b.movements, b'.movements[|b.movements|], n);
    SumByAppend(b.collected, c, CollectedIn(n));
  }

  lemma CollectionTraced(b: CashBooks, r: nat, c: Collected, rec: Receivable, n: nat)
    requires PaymentsTraced(b) && r < |b.receivables| && c.receivable == r
             && rec.paid == b.receivables[r].paid + c.amount
    ensures PaymentTraced(b.collected + [c], b.receivables[r := rec], n)
  {
    assert PaymentTraced(b.collected, b.receivables, n);
    SumByAppend(b.collected, c, CollectedOn(n));
  }

  lemma CancelReceivableKeeps(b: CashBooks, r: nat)
    requires Valid(b) && CancelReceivable(b, r).Success?
    ensures Valid(CancelReceivable(b, r).value)
  {
    var b' := CancelReceivable(b, r).value;
    assert forall s: nat :: SessionCash(b', s) == SessionCash(b, s) && DocumentCash(b', s) == DocumentCash(b, s);
    ReceivableReplaced(b, r, b'.receivables[r]);
    forall i: nat
      ensures PaymentTraced(b'.collected, b'.receivables, i)
    {
      assert PaymentTraced(b.collected, b.receivables, i);
    }
  }

  lemma PayThirdPartyKeeps(b: CashBooks, user: UserId, usable: bool, amount: int)
    requires Valid(b) && PayThirdParty(b, user, usable, amount).Success?
    ensures Valid(PayThirdParty(b, user, usable, amount).value)
  {
    var b' := PayThirdParty(b, user, usable, amount).value;
    forall n: nat
      ensures SessionCash(b', n) == DocumentCash(b', n) && SaleTraced(b'.movements, b'.sales, n)
    {
      assert SessionCash(b, n) == DocumentCash(b, n) && SaleTraced(b.movements, b.sales, n);
      MovementAdds(b.movements, b'.movements[|b.movements|], n);
      SumByAppend(b.payouts, b'.payouts[|b.payouts|], PayoutsKept(n));
    }
  }

  lemma CancelPayoutKeeps(b: CashBooks, i: nat)
    requires Valid(b) && CancelPayout(b, i).Success?
    ensures Valid(CancelPayout(b, i).value)
  {
    var b' := CancelPayout(b, i).value;
    forall n: nat
      ensures SessionCash(b', n) == DocumentCash(b', n) && SaleTraced(b'.movements, b'.sales, n)
    {
      assert SessionCash(b, n) == DocumentCash(b, n) && SaleTraced(b.movements, b.sales, n);
      MovementAdds(b.movements, b'.movements[|b.movements|], n);
      SumByUpdate(b.payouts, i, b'.payouts[i], PayoutsKept(n));
    }
  }

  lemma AddMovementKeeps(b: CashBooks, user: UserId, permissions: set<string>, kind: CashType, amount: int)
    requires Valid(b) && AddMovement(b, user, permissions, kind, amount).Success?
    ensures Valid(AddMovement(b, user, permissions, kind, amount).value)
  {
    var b' := AddMovement(b, user, permissions, kind, amount).value;
    forall n: nat
      ensures SessionCash(b', n) == DocumentCash(b', n) && SaleTraced(b'.movements, b'.sales, n)
    {
      assert SessionCash(b, n) == DocumentCash(b, n) && SaleTraced(b.movements, b.sales, n);
      MovementAdds(b.movements, b'.movements[|b.movements|], n);
    }
  }
}
