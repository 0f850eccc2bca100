/**
 What can still happen to a session after it is closed. The record itself never changes again; its
 cash drifts only by the payouts and sales of that session that are cancelled later.
 */
module ClosedSessions {
  import opened Prelude
  import opened CashLedger
  import opened CashInvariants

  /** The cash of a session with the effect of its cancellations taken out. */
  function SettledCash(b: CashBooks, s: nat): int {
    SessionCash(b, s) - SumBy(b.payouts, PayoutsUndone(s)) + SumBy(b.sales, SalesUndone(s))
  }

  predicate IsClosed(b: CashBooks, s: nat) {
    s < |b.sessions| && b.sessions[s].status == Closed
  }

  /** From `b` to `b'`, the closed session `s` kept its record and its cash apart from cancellations. */
  predicate Frozen(b: CashBooks, b': CashBooks, s: nat) {
    IsClosed(b, s) ==> IsClosed(b', s) && b'.sessions[s] == b.sessions[s] && SettledCash(b', s) == SettledCash(b, s)
  }

  lemma PostSaleFreezes(b: CashBooks, session: nat, st: Settlement, s: nat)
    requires session < |b.sessions| && b.sessions[session].status == Open
    ensures Frozen(b, PostSale(b, session, st), s)
  {
    var b' := PostSale(b, session, st);
    SumByAppend(b.sales, b'.sales[|b.sales|], SalesUndone(s));
    if st.amountPaid > 0 {
      MovementAdds(b.movements, b'.movements[|b.movements|], s);
    } else {
      assert b'.movements == b.movements;
    }
  }

  lemma ReverseSaleFreezes(b: CashBooks, k: nat, s: nat)
    requires Valid(b) && CancelRefusal(b, k).None?
    ensures Frozen(b, ReverseSale(b, k), s)
  {
    var b' := ReverseSale(b, k);
    assert SaleTraced(b.movements, b.sales, k);
    CorrectionsUndo(b.movements, k, b.sales[k].session, s);
    SumByConcat(b.movements, Corrections(b.movements, k, b.sales[k].session), CashMoved(s));
    SumByUpdate(b.sales, k, b'.sales[k], SalesUndone(s));
  }

  lemma PayReceivableFreezes(b: CashBooks, user: UserId, r: nat, amount: int, s: nat)
    requires PayReceivable(b, user, r, amount).Success?
    ensures Frozen(b, PayReceivable(b, user, r, amount).value, s)
  {
    MovementAdds(b.movements, PayReceivable(b, user, r, amount).value.movements[|b.movements|], s);
  }

  lemma PayThirdPartyFreezes(b: CashBooks, user: UserId, usable: bool, amount: int, s: nat)
    requires PayThirdParty(b, user, usable, amount).Success?
    ensures Frozen(b, PayThirdParty(b, user, usable, amount).value, s)
  {
    var b' := PayThirdParty(b, user, usable, amount).value;
    MovementAdds(b.movements, b'.movements[|b.movements|], s);
    SumByAppend(b.payouts, b'.payouts[|b.payouts|], PayoutsUndone(s));
  }

  lemma CancelPayoutFreezes(b: CashBooks, i: nat, s: nat)
    requires CancelPayout(b, i).Success?
    ensures Frozen(b, CancelPayout(b, i).value, s)
  {
    var b' := CancelPayout(b, i).value;
    MovementAdds(b.movements, b'.movements[|b.movements|], s);
    SumByUpdate(b.payouts, i, b'.payouts[i], PayoutsUndone(s));
  }

  lemma AddMovementFreezes(b: CashBooks, user: UserId, permissions: set<string>, kind: CashType, amount: int, s: nat)
    requires AddMovement(b, user, permissions, kind, amount).Success?
    ensures Frozen(b, AddMovement(b, user, permissions, kind, amount).value, s)
  {
    MovementAdds(b.movements, AddMovement(b, user, permissions, kind, amount).value.movements[|b.movements|], s);
  }
}
