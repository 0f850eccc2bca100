/** The cash totals that two services compute in their own ways from the same movements. */
module CashSummaries {
  import opened Prelude
  import opened CashLedger

  /** CashService adds and subtracts, testing the incoming types first. */
  function CashServiceTotal(movements: seq<CashMovement>): int {
    if movements == [] then 0
    else
      var m := movements[|movements| - 1];
      var sum := CashServiceTotal(movements[..|movements| - 1]);
      if IsPositive(m.kind) then sum + m.amount else if IsNegative(m.kind) then sum - m.amount else sum
  }

  /** PosService tests the outgoing types first. */
  function PosServiceTotal(movements: seq<CashMovement>): int {
    if movements == [] then 0
    else
      var m := movements[|movements| - 1];
      var sum := PosServiceTotal(movements[..|movements| - 1]);
      if IsNegative(m.kind) then sum - m.amount else if IsPositive(m.kind) then sum + m.amount else sum
  }

  /** Filter by type, then add the amounts. */
  function SumByTypes(movements: seq<CashMovement>, types: set<CashType>): int {
    if movements == [] then 0
    else
      var m := movements[|movements| - 1];
      SumByTypes(movements[..|movements| - 1], types) + if m.kind in types then m.amount else 0
  }

  function MovementsOf(movements: seq<CashMovement>, s: nat): seq<CashMovement> {
    if movements == [] then []
    else
      var rest := MovementsOf(movements[..|movements| - 1], s);
      if movements[|movements| - 1].session == s then rest + [movements[|movements| - 1]] else rest
  }

  datatype CashSummary = CashSummary(
    openingCash: int, saleCashIn: int, receivableCashIn: int, manualCashIn: int, correctionsIn: int,
    thirdPartyCashOut: int, cashOut: int, expenses: int, withdrawals: int, correctionsOut: int, expectedCash: int)

  function BuildSummary(openingCash: int, movements: seq<CashMovement>): CashSummary {
    CashSummary(
      openingCash,
      SumByTypes(movements, {SaleCashIn}), SumByTypes(movements, {ReceivableCashIn}), SumByTypes(movements, {CashIn}),
      SumByTypes(movements, {CorrectionIn}), SumByTypes(movements, {ThirdPartyCashOut}),
      SumByTypes(movements, {CashOut}),
      SumByTypes(movements, {Expense}), SumByTypes(movements, {Withdrawal}), SumByTypes(movements, {CorrectionOut}),
      openingCash + CashServiceTotal(movements))
  }

  datatype PosSummary = PosSummary(openingCash: int, salesCashIn: int, receivableCashIn: int, cashOut: int,
                                   expectedCash: int)

  function BuildCashSummary(openingCash: int, movements: seq<CashMovement>): PosSummary {
    PosSummary(openingCash, SumByTypes(movements, {SaleCashIn}), SumByTypes(movements, {ReceivableCashIn}),
               SumByTypes(movements, {ThirdPartyCashOut, Withdrawal, CashOut, Expense, CorrectionOut}),
               openingCash + PosServiceTotal(movements))
  }

  lemma {:induction false} TotalsAgree(movements: seq<CashMovement>)
    ensures CashServiceTotal(movements) == PosServiceTotal(movements)
  {
    if movements != [] { TotalsAgree(movements[..|movements| - 1]); }
  }

  /** Both summaries expect the same cash, and the nine totals by type account for all of it. */
  lemma {:induction false} SummariesAgree(openingCash: int, movements: seq<CashMovement>)
    ensures
      var c, p := BuildSummary(openingCash, movements), BuildCashSummary(openingCash, movements);
      && c.expectedCash == p.expectedCash
      && c.expectedCash
         == openingCash + c.saleCashIn + c.receivableCashIn + c.manualCashIn + c.correctionsIn
            - c.thirdPartyCashOut - c.cashOut - c.expenses - c.withdrawals - c.correctionsOut
      && p.cashOut == c.thirdPartyCashOut + c.cashOut + c.expenses + c.withdrawals + c.correctionsOut
  {
    TotalsAgree(movements);
    if movements != [] { SummariesAgree(openingCash, movements[..|movements| - 1]); }
  }

  /** The summary of a session's own movements expects what closing that session computes. */
  lemma {:induction false} SummaryExpectsClosingCash(openingCash: int, movements: seq<CashMovement>, s: nat)
    ensures BuildSummary(openingCash, MovementsOf(movements, s)).expectedCash
         == openingCash + SumBy(movements, CashMoved(s))
  {
    if movements != [] {
      var init, m := movements[..|movements| - 1], movements[|movements| - 1];
      SummaryExpectsClosingCash(openingCash, init, s);
      if m.session == s { assert (MovementsOf(init, s) + [m])[..|MovementsOf(init, s)|] == MovementsOf(init, s); }
    }
  }
}
