/** The monthly invoice run of the platform. */
module Invoicing {
  import opened Prelude
  import opened Decimals

  datatype Invoice = Invoice(tenant: string, number: string, amount: int, month: nat, isVoid: bool)
  datatype Subscription = Subscription(tenant: string, active: bool, tenantActive: bool, priceMonthly: Option<int>)

  /** What the query for subscriptions to invoice returns. */
  predicate IsEligible(s: Subscription) {
    s.active && s.tenantActive && Price(s) > 0
  }

  function Price(s: Subscription): int {
    if s.priceMonthly.Some? then s.priceMonthly.value else 0
  }

  /** One subscription a tenant. */
  predicate OnePerTenant(subs: seq<Subscription>) {
    forall i, j | 0 <= i < j < |subs| :: subs[i].tenant != subs[j].tenant
  }

  function InvoicedIn(invoices: seq<Invoice>, month: nat): set<string> {
    set i | i in invoices && i.month == month && !i.isVoid :: i.tenant
  }

  // ----- numbering -----

  /** The digits of an invoice number, read as one number; None when it has none, where the program gets NaN. */
  function NumberValue(number: string): Option<nat> {
    var digits := StripNonDigits(number);
    if digits == "" then None else Some(ValueOf(digits))
  }

  /** The value of the newest invoice's number; zero when there is no invoice. */
  function LastNumber(invoices: seq<Invoice>): Option<nat> {
    if invoices == [] then Some(0) else NumberValue(invoices[|invoices| - 1].number)
  }

  function InvoiceNumber(last: Option<nat>, created: nat): string {
    "INV-" + PadStart(match last case Some(n) => ToDecimal(n + created + 1) case None => "NaN", 5)
  }

  predicate InUse(invoices: seq<Invoice>, number: string) {
    exists i <- invoices :: i.number == number
  }

  // ----- the run -----

  /** Invoices so far, how many of them the run created, and whether a number that was in use stopped it. */
  datatype Progress = Progress(invoices: seq<Invoice>, created: nat, failed: bool)

  function InvoiceOne(p: Progress, sub: Subscription, invoiced: set<string>, month: nat): Progress {
    if p.failed || !IsEligible(sub) || sub.tenant in invoiced then p
    else
      var number := InvoiceNumber(LastNumber(p.invoices), p.created);
      if InUse(p.invoices, number) then p.(failed := true)
      else
        Progress(p.invoices + [Invoice(sub.tenant, number, Price(sub), month, false)], p.created + 1, false)
  }

  function InvoiceAll(invoices: seq<Invoice>, subs: seq<Subscription>, invoiced: set<string>, month: nat): Progress {
    if subs == [] then Progress(invoices, 0, false)
    else InvoiceOne(InvoiceAll(invoices, subs[..|subs| - 1], invoiced, month), subs[|subs| - 1], invoiced, month)
  }

  function Generate(invoices: seq<Invoice>, subs: seq<Subscription>, month: nat): Progress {
    InvoiceAll(invoices, subs, InvoicedIn(invoices, month), month)
  }

  /** Subscriptions that the run has to invoice. */
  function Due(subs: seq<Subscription>, invoiced: set<string>): seq<Subscription> {
    if subs == [] then []
    else
      var last, rest := subs[|subs| - 1], Due(subs[..|subs| - 1], invoiced);
      if IsEligible(last) && last.tenant !in invoiced then rest + [last] else rest
  }

  // ----- numbers -----

  lemma NumberReadBack(n: nat, created: nat)
    ensures NumberValue(InvoiceNumber(Some(n), created)) == Some(n + created + 1)
    ensures |InvoiceNumber(Some(n), created)| == 4 + Max(5, |ToDecimal(n + created + 1)|)
  {
    PaddedReadBack(n + created + 1, 5);
    StripKeepsDigits("INV-", PadStart(ToDecimal(n + created + 1), 5));
  }

  /** 1 + 2 + ... + k. */
  function Triangle(k: nat): nat {
    if k == 0 then 0 else Triangle(k - 1) + k
  }

  lemma {:induction false} TriangleIs(k: nat)
    ensures Triangle(k) == k * (k + 1) / 2
  {
    if k > 0 {
      TriangleIs(k - 1);
      assert k * (k + 1) == (k - 1) * k + 2 * k;
    }
  }

  /** Row `at` is the invoice of `sub` in the month, with a number that no earlier row has. */
  predicate RowFor(all: seq<Invoice>, at: nat, sub: Subscription, month: nat) {
    && at < |all|
    && all[at].tenant == sub.tenant && all[at].amount == Price(sub) && all[at].month == month && !all[at].isVoid
    && !InUse(all[..at], all[at].number)
  }

  /** What the run has done after some subscriptions, in terms of those that were due. */
  ghost predicate RowsFor(p: Progress, invoices: seq<Invoice>, due: seq<Subscription>, month: nat) {
    && p.created <= |due| && (!p.failed ==> p.created == |due|)
    && |p.invoices| == |invoices| + p.created && p.invoices[..|invoices|] == invoices
    && forall k | 0 <= k < p.created :: RowFor(p.invoices, |invoices| + k, due[k], month)
  }

  lemma RowStays(all: seq<Invoice>, row: Invoice, at: nat, sub: Subscription, month: nat)
    requires RowFor(all, at, sub, month)
    ensures RowFor(all + [row], at, sub, month)
  {
    assert (all + [row])[..at] == all[..at];
  }

  lemma OneMoreRow(p: Progress, invoices: seq<Invoice>, due: seq<Subscription>, sub: Subscription,
                   invoiced: set<string>, month: nat)
    requires RowsFor(p, invoices, due, month) && IsEligible(sub) && sub.tenant !in invoiced
    ensures RowsFor(InvoiceOne(p, sub, invoiced, month), invoices, due + [sub], month)
  {
    var p', more := InvoiceOne(p, sub, invoiced, month), due + [sub];
    if !p'.failed {
      var row := p'.invoices[|p.invoices|];
      assert p'.invoices == p.invoices + [row] && p'.invoices[..|p.invoices|] == p.invoices;
      forall k | 0 <= k < p'.created
        ensures RowFor(p'.invoices, |invoices| + k, more[k], month)
      {
        if k < p.created { RowStays(p.invoices, row, |invoices| + k, due[k], month); }
      }
    }
  }

  lemma {:induction false} RunIsRowsFor(invoices: seq<Invoice>, subs: seq<Subscription>, invoiced: set<string>,
                                        month: nat)
    ensures RowsFor(InvoiceAll(invoices, subs, invoiced, month), invoices, Due(subs, invoiced), month)
  {
    if subs != [] {
      var init, last := subs[..|subs| - 1], subs[|subs| - 1];
      RunIsRowsFor(invoices, init, invoiced, month);
      if IsEligible(last) && last.tenant !in invoiced {
        OneMoreRow(InvoiceAll(invoices, init, invoiced, month), invoices, Due(init, invoiced), last, invoiced, month);
      }
    }
  }

  /** The number that the k-th invoice of a run gets when the last number before the run reads as `base`. */
  function NumberInRun(base: nat, k: nat): string {
    InvoiceNumber(Some(base + Triangle(k)), k)
  }

  lemma NumberInRunReadBack(base: nat, k: nat)
    ensures NumberValue(NumberInRun(base, k)) == Some(base + Triangle(k + 1))
  {
    NumberReadBack(base + Triangle(k), k);
  }

  predicate NumberedAt(all: seq<Invoice>, start: nat, k: nat, base: nat) {
    start + k < |all| && NumberValue(all[start + k].number) == Some(base + Triangle(k + 1))
  }

  /** The numbers of the rows that the run appended. */
  ghost predicate NumberedFrom(p: Progress, start: nat, base: nat) {
    && |p.invoices| == start + p.created
    && LastNumber(p.invoices) == Some(base + Triangle(p.created))
    && forall k | 0 <= k < p.created :: NumberedAt(p.invoices, start, k, base)
  }

  lemma NextNumbered(all: seq<Invoice>, start: nat, row: Invoice, base: nat, created: nat)
    requires |all| == start + created && NumberValue(row.number) == Some(base + Triangle(created + 1))
    ensures NumberedAt(all + [row], start, created, base)
    ensures LastNumber(all + [row]) == Some(base + Triangle(created + 1))
    ensures forall k | 0 <= k < created :: NumberedAt(all, start, k, base) ==> NumberedAt(all + [row], start, k, base)
  {
  }

  lemma OneMoreNumbered(p: Progress, start: nat, sub: Subscription, invoiced: set<string>, month: nat, base: nat)
    requires NumberedFrom(p, start, base) && IsEligible(sub) && sub.tenant !in invoiced
    ensures NumberedFrom(InvoiceOne(p, sub, invoiced, month), start, base)
  {
    var row := InvoiceOneAppends(p, sub, invoiced, month, base + Triangle(p.created));
    NextNumbered(p.invoices, start, row, base, p.created);
  }

  /** One step of the run, and how the number of the row that it appends reads. */
  lemma InvoiceOneAppends(p: Progress, sub: Subscription, invoiced: set<string>, month: nat, last: nat)
    returns (row: Invoice)
    requires LastNumber(p.invoices) == Some(last) && IsEligible(sub) && sub.tenant !in invoiced
    ensures InvoiceOne(p, sub, invoiced, month)
         in {p, p.(failed := true), Progress(p.invoices + [row], p.created + 1, false)}
    ensures NumberValue(row.number) == Some(last + p.created + 1) && row.number == InvoiceNumber(Some(last), p.created)
  {
    row := Invoice(sub.tenant, InvoiceNumber(LastNumber(p.invoices), p.created), Price(sub), month, false);
    NumberReadBack(last, p.created);
  }

  lemma {:induction false} RunIsNumbered(invoices: seq<Invoice>, subs: seq<Subscription>, invoiced: set<string>,
                                         month: nat, base: nat)
    requires LastNumber(invoices) == Some(base)
    ensures NumberedFrom(InvoiceAll(invoices, subs, invoiced, month), |invoices|, base)
  {
    if subs != [] {
      var init, last := subs[..|subs| - 1], subs[|subs| - 1];
      RunIsNumbered(invoices, init, invoiced, month, base);
      if IsEligible(last) && last.tenant !in invoiced {
        OneMoreNumbered(InvoiceAll(invoices, init, invoiced, month), |invoices|, last, invoiced, month, base);
      }
    }
  }

  predicate TextAt(all: seq<Invoice>, start: nat, k: nat, text: string) {
    start + k < |all| && all[start + k].number == text
  }

  lemma OneMoreText(p: Progress, start: nat, sub: Subscription, invoiced: set<string>, month: nat, base: nat, k: nat)
    requires NumberedFrom(p, start, base) && IsEligible(sub) && sub.tenant !in invoiced
    requires k < p.created ==> TextAt(p.invoices, start, k, NumberInRun(base, k))
    ensures k < InvoiceOne(p, sub, invoiced, month).created ==>
              TextAt(InvoiceOne(p, sub, invoiced, month).invoices, start, k, NumberInRun(base, k))
  {
    var row := InvoiceOneAppends(p, sub, invoiced, month, base + Triangle(p.created));
  }

  /** The text of the k-th number of a run. */
  lemma {:induction false} RunTexts(invoices: seq<Invoice>, subs: seq<Subscription>, invoiced: set<string>, month: nat,
                                    base: nat, k: nat)
    requires LastNumber(invoices) == Some(base)
    ensures k < InvoiceAll(invoices, subs, invoiced, month).created ==>
              TextAt(InvoiceAll(invoices, subs, invoiced, month).invoices, |invoices|, k, NumberInRun(base, k))
  {
    if subs != [] {
      var init, last := subs[..|subs| - 1], subs[|subs| - 1];
      RunTexts(invoices, init, invoiced, month, base, k);
      RunIsNumbered(invoices, init, invoiced, month, base);
      if IsEligible(last) && last.tenant !in invoiced {
        OneMoreText(InvoiceAll(invoices, init, invoiced, month), |invoices|, last, invoiced, month, base, k);
      }
    }
  }

  lemma RowOfRun(p: Progress, invoices: seq<Invoice>, due: seq<Subscription>, month: nat, base: nat, k: nat)
    requires RowsFor(p, invoices, due, month) && NumberedFrom(p, |invoices|, base) && k < p.created
    ensures RowFor(p.invoices, |invoices| + k, due[k], month)
    ensures NumberValue(p.invoices[|invoices| + k].number) == Some(base + (k + 1) * (k + 2) / 2)
  {
    assert NumberedAt(p.invoices, |invoices|, k, base);
    TriangleIs(k + 1);
  }

  /**
   The k-th invoice of a run is for the k-th subscription that was due, at its price, and its number reads as
   the last number before the run plus 1 + 2 + ... + (k + 1).
   */
  lemma RunNumbers(invoices: seq<Invoice>, subs: seq<Subscription>, month: nat, base: nat, k: nat)
    requires LastNumber(invoices) == Some(base) && k < Generate(invoices, subs, month).created
    ensures
      var all, due := Generate(invoices, subs, month).invoices, Due(subs, InvoicedIn(invoices, month));
      && k < |due| && RowFor(all, |invoices| + k, due[k], month)
      && NumberValue(all[|invoices| + k].number) == Some(base + (k + 1) * (k + 2) / 2)
  {
    var invoiced := InvoicedIn(invoices, month);
    RunIsRowsFor(invoices, subs, invoiced, month);
    RunIsNumbered(invoices, subs, invoiced, month, base);
    RowOfRun(InvoiceAll(invoices, subs, invoiced, month), invoices, Due(subs, invoiced), month, base, k);
  }

  /** Numbers that can be read stay so: the run gives every invoice a number with digits. */
  lemma {:induction false} NumbersStayReadable(invoices: seq<Invoice>, subs: seq<Subscription>, invoiced: set<string>,
                                               month: nat)
    requires forall i <- invoices :: NumberValue(i.number).Some?
    ensures forall i <- InvoiceAll(invoices, subs, invoiced, month).invoices :: NumberValue(i.number).Some?
  {
    if subs != [] {
      var init := subs[..|subs| - 1];
      NumbersStayReadable(invoices, init, invoiced, month);
      var p := InvoiceAll(invoices, init, invoiced, month);
      assert p.invoices != [] ==> p.invoices[|p.invoices| - 1] in p.invoices;
      NumberReadBack(LastNumber(p.invoices).value, p.created);
    }
  }

  // ----- freshness -----

  /** The first `n` numbers of the run meet one that is in use already. */
  ghost predicate MeetsOneInUse(invoices: seq<Invoice>, base: nat, n: nat) {
    exists k | 0 <= k < n :: InUse(invoices, NumberInRun(base, k))
  }

  /** A row that the run appended never blocks a later one. */
  lemma OwnNumbersDoNotBlock(p: Progress, invoices: seq<Invoice>, base: nat, number: string)
    requires NumberedFrom(p, |invoices|, base) && p.invoices[..|invoices|] == invoices
    requires NumberValue(number) == Some(base + Triangle(p.created + 1))
    ensures InUse(p.invoices, number) <==> InUse(invoices, number)
  {
    var n := |invoices|;
    assert p.invoices == invoices + p.invoices[n..];
    forall i <- p.invoices[n..]
      ensures i.number != number
    {
      var k :| 0 <= k < p.created && p.invoices[n..][k] == i;
      assert NumberedAt(p.invoices, n, k, base);
      TriangleGrows(k + 1, p.created + 1);
    }
  }

  /** The run is stopped exactly when one of the numbers it is going to use is in use before it starts. */
  lemma {:induction false} RunStopsExactlyWhen(invoices: seq<Invoice>, subs: seq<Subscription>, invoiced: set<string>,
                                               month: nat, base: nat)
    requires LastNumber(invoices) == Some(base)
    ensures InvoiceAll(invoices, subs, invoiced, month).failed <==> MeetsOneInUse(invoices, base, |Due(subs, invoiced)|)
  {
    if subs != [] {
      var init, last := subs[..|subs| - 1], subs[|subs| - 1];
      var p, due := InvoiceAll(invoices, init, invoiced, month), Due(init, invoiced);
      RunStopsExactlyWhen(invoices, init, invoiced, month, base);
      RunIsRowsFor(invoices, init, invoiced, month);
      RunIsNumbered(invoices, init, invoiced, month, base);
      if !p.failed && IsEligible(last) && last.tenant !in invoiced {
        NumberInRunReadBack(base, p.created);
        OwnNumbersDoNotBlock(p, invoices, base, NumberInRun(base, p.created));
        OneMoreNumber(invoices, base, |due|);
      }
    }
  }

  lemma OneMoreNumber(invoices: seq<Invoice>, base: nat, n: nat)
    ensures MeetsOneInUse(invoices, base, n + 1) <==>
            MeetsOneInUse(invoices, base, n) || InUse(invoices, NumberInRun(base, n))
  {
  }

  /** No invoice has a number that reads above the newest one's. */
  predicate NewestIsLargest(invoices: seq<Invoice>) {
    && LastNumber(invoices).Some?
    && forall i <- invoices :: NumberValue(i.number).Some? ==> NumberValue(i.number).value <= LastNumber(invoices).value
  }

  /** Then the run never meets a number in use, and the newest stays the largest for the runs after it. */
  lemma {:induction false} NumbersAreFresh(invoices: seq<Invoice>, subs: seq<Subscription>, invoiced: set<string>,
                                           month: nat)
    requires NewestIsLargest(invoices)
    ensures !InvoiceAll(invoices, subs, invoiced, month).failed
    ensures NewestIsLargest(InvoiceAll(invoices, subs, invoiced, month).invoices)
  {
    if subs != [] {
      var init := subs[..|subs| - 1];
      NumbersAreFresh(invoices, init, invoiced, month);
      var p := InvoiceAll(invoices, init, invoiced, month);
      NumberReadBack(LastNumber(p.invoices).value, p.created);
    }
  }

  lemma FirstNumberTaken(invoices: seq<Invoice>, subs: seq<Subscription>, month: nat, base: nat)
    requires LastNumber(invoices) == Some(base) && InUse(invoices, NumberInRun(base, 0))
    requires Due(subs, InvoicedIn(invoices, month)) != []
    ensures Generate(invoices, subs, month).failed
  {
    RunStopsExactlyWhen(invoices, subs, InvoicedIn(invoices, month), month, base);
  }

  // ----- complete and idempotent -----

  lemma {:induction false} DueIs(subs: seq<Subscription>, invoiced: set<string>)
    ensures forall s :: s in Due(subs, invoiced) <==> s in subs && IsEligible(s) && s.tenant !in invoiced
    ensures OnePerTenant(subs) ==> OnePerTenant(Due(subs, invoiced))
  {
    if subs != [] {
      var init, last := subs[..|subs| - 1], subs[|subs| - 1];
      DueIs(init, invoiced);
      assert subs == init + [last];
      forall i | 0 <= i < |Due(init, invoiced)|
        ensures Due(init, invoiced)[i] in init
      {
      }
    }
  }

  /** The subscription is to be invoiced: it and its tenant are active, and its plan has a price. */
  predicate IsToBeInvoiced(sub: Subscription) {
    sub.active && sub.tenantActive && sub.priceMonthly.Some? && 0 < sub.priceMonthly.value
  }

  /** The tenant has an invoice in the month that is not void. */
  predicate HasStanding(invoices: seq<Invoice>, tenant: string, month: nat) {
    exists i <- invoices :: i.tenant == tenant && i.month == month && !i.isVoid
  }

  lemma DueInWords(invoices: seq<Invoice>, sub: Subscription, month: nat)
    ensures IsEligible(sub) <==> IsToBeInvoiced(sub)
    ensures IsEligible(sub) ==> Price(sub) == sub.priceMonthly.value
    ensures sub.tenant in InvoicedIn(invoices, month) <==> HasStanding(invoices, sub.tenant, month)
  {
  }

  /** A run that was not stopped leaves every tenant to be invoiced with a standing invoice in the month. */
  lemma RunIsComplete(invoices: seq<Invoice>, subs: seq<Subscription>, month: nat, sub: Subscription)
    requires !Generate(invoices, subs, month).failed
    requires sub in subs && IsToBeInvoiced(sub)
    ensures HasStanding(Generate(invoices, subs, month).invoices, sub.tenant, month)
  {
    var invoiced, p := InvoicedIn(invoices, month), Generate(invoices, subs, month);
    DueInWords(invoices, sub, month);
    RunIsRowsFor(invoices, subs, invoiced, month);
    DueIs(subs, invoiced);
    assert p.invoices == invoices + p.invoices[|invoices|..];
    if sub.tenant in invoiced {
      var i :| i in invoices && i.month == month && !i.isVoid && i.tenant == sub.tenant;
      assert i in p.invoices;
    } else {
      var k :| 0 <= k < |Due(subs, invoiced)| && Due(subs, invoiced)[k] == sub;
      assert RowFor(p.invoices, |invoices| + k, Due(subs, invoiced)[k], month);
      assert p.invoices[|invoices| + k] in p.invoices;
    }
  }

  lemma RowsOnce(p: Progress, invoices: seq<Invoice>, due: seq<Subscription>, month: nat, j: nat, k: nat)
    requires RowsFor(p, invoices, due, month) && OnePerTenant(due) && j < k < p.created
    ensures p.invoices[|invoices| + j].tenant != p.invoices[|invoices| + k].tenant
    ensures p.invoices[|invoices| + j].number != p.invoices[|invoices| + k].number
  {
    var at, all := |invoices| + k, p.invoices;
    assert RowFor(all, |invoices| + j, due[j], month) && RowFor(all, at, due[k], month);
    assert all[..at][|invoices| + j] in all[..at];
  }

  /** It invoices no tenant twice, and no two of its numbers are the same. */
  lemma RunInvoicesOnce(invoices: seq<Invoice>, subs: seq<Subscription>, month: nat, j: nat, k: nat)
    requires OnePerTenant(subs) && j < k < Generate(invoices, subs, month).created
    ensures
      var p := Generate(invoices, subs, month);
      && |p.invoices| == |invoices| + p.created
      && p.invoices[|invoices| + j].tenant != p.invoices[|invoices| + k].tenant
      && p.invoices[|invoices| + j].number != p.invoices[|invoices| + k].number
  {
    var invoiced := InvoicedIn(invoices, month);
    RunIsRowsFor(invoices, subs, invoiced, month);
    DueIs(subs, invoiced);
    RowsOnce(InvoiceAll(invoices, subs, invoiced, month), invoices, Due(subs, invoiced), month, j, k);
  }

  /** The row is an invoice of the subscription, at its price, in the month, with a number of its own. */
  predicate IsInvoiceOf(invoices: seq<Invoice>, at: nat, sub: Subscription, month: nat) {
    && at < |invoices| && sub.priceMonthly.Some?
    && invoices[at] == Invoice(sub.tenant, invoices[at].number, sub.priceMonthly.value, month, false)
    && forall i | 0 <= i < at :: invoices[i].number != invoices[at].number
  }

  /** It invoices what is to be invoiced only, and nobody who had a standing invoice in the month. */
  lemma RunInvoicesTheDue(invoices: seq<Invoice>, subs: seq<Subscription>, month: nat, k: nat)
    requires k < Generate(invoices, subs, month).created
    ensures
      var p := Generate(invoices, subs, month);
      && |p.invoices| == |invoices| + p.created && p.invoices[..|invoices|] == invoices
      && exists sub <- subs ::
           IsToBeInvoiced(sub) && !HasStanding(invoices, sub.tenant, month)
           && IsInvoiceOf(p.invoices, |invoices| + k, sub, month)
  {
    var invoiced, p := InvoicedIn(invoices, month), Generate(invoices, subs, month);
    RunIsRowsFor(invoices, subs, invoiced, month);
    DueIs(subs, invoiced);
    var sub, at := Due(subs, invoiced)[k], |invoices| + k;
    assert sub in Due(subs, invoiced) && RowFor(p.invoices, at, sub, month);
    DueInWords(invoices, sub, month);
    assert forall i | 0 <= i < at :: p.invoices[..at][i] in p.invoices[..at];
    assert IsInvoiceOf(p.invoices, at, sub, month);
  }

  lemma {:induction false} TriangleGrows(j: nat, k: nat)
    requires j < k
    ensures Triangle(j) < Triangle(k)
    decreases k
  {
    if j < k - 1 { TriangleGrows(j, k - 1); }
  }

  /** A second run in the month adds nothing. */
  lemma SecondRunAddsNothing(invoices: seq<Invoice>, subs: seq<Subscription>, month: nat)
    requires !Generate(invoices, subs, month).failed
    ensures
      var first := Generate(invoices, subs, month).invoices;
      Generate(first, subs, month) == Progress(first, 0, false)
  {
    var first := Generate(invoices, subs, month).invoices;
    forall sub <- subs | IsEligible(sub)
      ensures sub.tenant in InvoicedIn(first, month)
    {
      DueInWords(first, sub, month);
      RunIsComplete(invoices, subs, month, sub);
    }
    NothingDue(first, subs, InvoicedIn(first, month), month);
  }

  lemma {:induction false} NothingDue(invoices: seq<Invoice>, subs: seq<Subscription>, invoiced: set<string>,
                                      month: nat)
    requires forall sub <- subs :: IsEligible(sub) ==> sub.tenant in invoiced
    ensures InvoiceAll(invoices, subs, invoiced, month) == Progress(invoices, 0, false)
  {
    if subs != [] { NothingDue(invoices, subs[..|subs| - 1], invoiced, month); }
  }
}
