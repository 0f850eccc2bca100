/**
 All that writes invoices: the monthly run, invoices made by hand, and marking one void or valid again. Hand-made
 invoices are numbered by the year and the count of the year's invoices. The tables this can reach start empty.
 */
module Billing {
  import opened Prelude
  import opened Decimals
  import opened Invoicing

  function YearOf(month: nat): nat { month / 12 }

  /** How many invoices were issued since the year began. */
  function IssuedSince(invoices: seq<Invoice>, year: nat): nat {
    if invoices == [] then 0
    else IssuedSince(invoices[..|invoices| - 1], year) + if YearOf(invoices[|invoices| - 1].month) >= year then 1 else 0
  }

  function HandMadeNumber(year: nat, count: nat): string {
    "INV-" + (ToDecimal(year) + "-" + PadStart(ToDecimal(count + 1), 5))
  }

  function NextInvoiceNumber(invoices: seq<Invoice>, month: nat): string {
    HandMadeNumber(YearOf(month), IssuedSince(invoices, YearOf(month)))
  }

  datatype Task =
    | ByHand(tenant: string, amount: int)
    | Monthly(subs: seq<Subscription>)
    | Marking(index: nat, isVoid: bool)

  datatype Event = Event(month: nat, task: Task)

  function CreateByHand(invoices: seq<Invoice>, tenant: string, amount: int, month: nat): Option<seq<Invoice>> {
    var number := NextInvoiceNumber(invoices, month);
    if InUse(invoices, number) then None else Some(invoices + [Invoice(tenant, number, amount, month, false)])
  }

  function Perform(invoices: seq<Invoice>, event: Event): seq<Invoice> {
    match event.task
    case ByHand(tenant, amount) =>
      var created := CreateByHand(invoices, tenant, amount, event.month);
      if created.Some? then created.value else invoices
    case Monthly(subs) => Generate(invoices, subs, event.month).invoices
    case Marking(i, isVoid) => if i < |invoices| then invoices[i := invoices[i].(isVoid := isVoid)] else invoices
  }

  function Reached(events: seq<Event>): seq<Invoice> {
    if events == [] then [] else Perform(Reached(events[..|events| - 1]), events[|events| - 1])
  }

  // ----- one task -----

  function IssuedFrom(firstMonth: nat): Invoice -> int {
    (i: Invoice) => if firstMonth <= i.month then 1 else 0
  }

  /** The invoices since January of the year are counted. */
  lemma {:induction false} IssuedCounts(invoices: seq<Invoice>, year: nat)
    ensures IssuedSince(invoices, year) == SumBy(invoices, IssuedFrom(12 * year))
  {
    if invoices != [] { IssuedCounts(invoices[..|invoices| - 1], year); }
  }

  /** An invoice by hand has the number of the year and the count, or is refused because that number is in use. */
  lemma ByHandMeans(invoices: seq<Invoice>, tenant: string, amount: int, month: nat)
    ensures
      var count := SumBy(invoices, IssuedFrom(12 * (month / 12)));
      && 0 <= count
      && var number := "INV-" + ToDecimal(month / 12) + "-" + PadStart(ToDecimal(count + 1), 5);
         match CreateByHand(invoices, tenant, amount, month)
         case None => exists i <- invoices :: i.number == number
         case Some(after) =>
           && (forall i <- invoices :: i.number != number)
           && after == invoices + [Invoice(tenant, number, amount, month, false)]
  {
    IssuedCounts(invoices, month / 12);
    var y, c := ToDecimal(month / 12), PadStart(ToDecimal(IssuedSince(invoices, month / 12) + 1), 5);
    assert "INV-" + (y + "-" + c) == "INV-" + y + "-" + c;
  }

  /** Marking touches the void mark of one row. */
  lemma MarkingMeans(invoices: seq<Invoice>, index: nat, isVoid: bool, month: nat)
    ensures
      var after := Perform(invoices, Event(month, Marking(index, isVoid)));
      && |after| == |invoices|
      && forall i | 0 <= i < |invoices| ::
           after[i] == Invoice(invoices[i].tenant, invoices[i].number, invoices[i].amount, invoices[i].month,
                               if i == index then isVoid else invoices[i].isVoid)
  {
  }

  // ----- the two forms of a number -----

  /** No dash after the prefix: how the monthly run numbers. */
  predicate IsPlain(number: string) {
    "INV-" <= number && forall i | 4 <= i < |number| :: number[i] != '-'
  }

  lemma RunNumberIsPlain(n: nat, created: nat)
    ensures IsPlain(InvoiceNumber(Some(n), created))
  {
    PaddedReadBack(n + created + 1, 5);
    var digits := PadStart(ToDecimal(n + created + 1), 5);
    assert InvoiceNumber(Some(n), created) == "INV-" + digits;
    assert forall i | 0 <= i < |digits| :: digits[i] in digits;
  }

  lemma HandMadeIsNotPlain(year: nat, count: nat)
    ensures !IsPlain(HandMadeNumber(year, count))
  {
    var y := ToDecimal(year);
    assert HandMadeNumber(year, count)[4 + |y|] == '-';
  }

  lemma StripOne(c: char)
    requires !IsDigit(c)
    ensures StripNonDigits([c]) == ""
  {
    assert [c][..0] == "";
  }

  lemma StripTwoNumerals(y: string, c: string)
    requires AllDigits(y) && AllDigits(c)
    ensures StripNonDigits(y + "-" + c) == y + c
  {
    StripConcat(y + "-", c);
    StripConcat(y, "-");
    StripOne('-');
    StripKeepsDigits("", y);
    StripKeepsDigits("", c);
    assert "" + y == y && "" + c == c && y + "" == y;
  }

  lemma HandMadeReadable(year: nat, count: nat)
    ensures NumberValue(HandMadeNumber(year, count)).Some?
    ensures StripNonDigits(HandMadeNumber(year, count)) == ToDecimal(year) + PadStart(ToDecimal(count + 1), 5)
  {
    var y, c := ToDecimal(year), PadStart(ToDecimal(count + 1), 5);
    PaddedReadBack(count + 1, 5);
    StripTwoNumerals(y, c);
    StripConcat("INV-", y + "-" + c);
    StripKeepsDigits("INV-", "");
    assert "INV-" + "" == "INV-" && "" + (y + c) == y + c;
  }

  lemma FivePlaces()
    ensures Pow10(5) == 100_000
  {
    assert Pow10(1) == 10 && Pow10(2) == 100 && Pow10(3) == 1000 && Pow10(4) == 10_000;
  }

  /** A year's number reads as the year followed by five digits, while there are five. */
  lemma HandMadeReads(year: nat, count: nat)
    requires count + 1 < 100_000
    ensures NumberValue(HandMadeNumber(year, count)) == Some(year * 100_000 + count + 1)
  {
    var y, c := ToDecimal(year), PadStart(ToDecimal(count + 1), 5);
    HandMadeReadable(year, count);
    ReadBack(year);
    PaddedReadBack(count + 1, 5);
    FivePlaces();
    DecimalFits(count + 1, 5);
    assert |c| == 5;
    ValueOfConcat(y, c);
  }

  lemma SplitAtDash(a: string, rest: string, a': string, rest': string)
    requires AllDigits(a) && AllDigits(a') && a + "-" + rest == a' + "-" + rest'
    ensures a == a' && rest == rest'
  {
    var s := a + "-" + rest;
    assert forall i | 0 <= i < |a| :: s[i] == a[i] && a[i] in a;
    assert forall i | 0 <= i < |a'| :: s[i] == a'[i] && a'[i] in a';
    assert s[|a|] == '-' && s[|a'|] == '-';
    assert a == s[..|a|] && a' == s[..|a'|];
    assert rest == s[|a| + 1..] && rest' == s[|a'| + 1..];
  }

  lemma HandMadeTellsApart(year: nat, count: nat, year': nat, count': nat)
    ensures HandMadeNumber(year, count) == HandMadeNumber(year', count') <==> year == year' && count == count'
  {
    if HandMadeNumber(year, count) == HandMadeNumber(year', count') {
      var y, c, y', c' := ToDecimal(year), PadStart(ToDecimal(count + 1), 5), ToDecimal(year'),
        PadStart(ToDecimal(count' + 1), 5);
      assert HandMadeNumber(year, count)[4..] == y + "-" + c && HandMadeNumber(year', count')[4..] == y' + "-" + c';
      SplitAtDash(y, c, y', c');
      ReadBack(year);
      ReadBack(year');
      PaddedReadBack(count + 1, 5);
      PaddedReadBack(count' + 1, 5);
    }
  }

  // ----- every reachable table -----

  /** Row `j` was numbered by the run, or by hand with the count of its year's invoices before it. */
  predicate RowForm(invoices: seq<Invoice>, j: nat)
    requires j < |invoices|
  {
    var year := YearOf(invoices[j].month);
    IsPlain(invoices[j].number) || invoices[j].number == HandMadeNumber(year, IssuedSince(invoices[..j], year))
  }

  ghost predicate Sound(invoices: seq<Invoice>) {
    && (forall i <- invoices :: NumberValue(i.number).Some?)
    && (forall i, j | 0 <= i < j < |invoices| :: invoices[i].number != invoices[j].number)
    && (forall j | 0 <= j < |invoices| :: RowForm(invoices, j))
  }

  lemma SoundWithOneMore(invoices: seq<Invoice>, row: Invoice)
    requires Sound(invoices) && NumberValue(row.number).Some? && !InUse(invoices, row.number)
    requires IsPlain(row.number) || row.number == NextInvoiceNumber(invoices, row.month)
    ensures Sound(invoices + [row])
  {
    var all := invoices + [row];
    assert forall i | 0 <= i < |invoices| :: invoices[i] in invoices;
    forall j | 0 <= j < |all|
      ensures RowForm(all, j)
    {
      assert all[..j] == invoices[..j] && invoices[..|invoices|] == invoices;
      assert j < |invoices| ==> RowForm(invoices, j);
    }
  }

  lemma {:induction false} RunKeepsSound(invoices: seq<Invoice>, subs: seq<Subscription>, invoiced: set<string>,
                                         month: nat)
    requires Sound(invoices)
    ensures Sound(InvoiceAll(invoices, subs, invoiced, month).invoices)
  {
    if subs != [] {
      var init, last := subs[..|subs| - 1], subs[|subs| - 1];
      RunKeepsSound(invoices, init, invoiced, month);
      InvoiceOneKeepsSound(InvoiceAll(invoices, init, invoiced, month), last, invoiced, month);
    }
  }

  lemma InvoiceOneKeepsSound(p: Progress, sub: Subscription, invoiced: set<string>, month: nat)
    requires Sound(p.invoices)
    ensures Sound(InvoiceOne(p, sub, invoiced, month).invoices)
  {
    var p' := InvoiceOne(p, sub, invoiced, month);
    if p'.invoices != p.invoices {
      assert p.invoices != [] ==> p.invoices[|p.invoices| - 1] in p.invoices;
      var last := LastNumber(p.invoices).value;
      NumberReadBack(last, p.created);
      RunNumberIsPlain(last, p.created);
      SoundWithOneMore(p.invoices, Invoice(sub.tenant, InvoiceNumber(Some(last), p.created), Price(sub), month, false));
    }
  }

  lemma {:induction false} IssuedByMonth(invoices: seq<Invoice>, others: seq<Invoice>, year: nat)
    requires |invoices| == |others| && forall i | 0 <= i < |invoices| :: invoices[i].month == others[i].month
    ensures IssuedSince(invoices, year) == IssuedSince(others, year)
  {
    if invoices != [] {
      var n := |invoices| - 1;
      assert forall i | 0 <= i < n :: invoices[..n][i] == invoices[i] && others[..n][i] == others[i];
      IssuedByMonth(invoices[..n], others[..n], year);
    }
  }

  lemma MarkingKeepsSound(invoices: seq<Invoice>, i: nat, isVoid: bool)
    requires Sound(invoices) && i < |invoices|
    ensures Sound(invoices[i := invoices[i].(isVoid := isVoid)])
  {
    var all := invoices[i := invoices[i].(isVoid := isVoid)];
    assert forall j | 0 <= j < |all| :: all[j].number == invoices[j].number && invoices[j] in invoices;
    forall j | 0 <= j < |all|
      ensures RowForm(all, j)
    {
      assert RowForm(invoices, j);
      assert forall n | 0 <= n < j :: all[..j][n].month == invoices[..j][n].month;
      IssuedByMonth(all[..j], invoices[..j], YearOf(invoices[j].month));
    }
  }

  /**
   In every reachable table all numbers are distinct and can be read, so a run has a number to start from, and an
   invoice made by hand is never refused: neither an earlier one nor the run can have taken its number.
   */
  lemma {:induction false} ReachedIsSound(events: seq<Event>)
    ensures Sound(Reached(events)) && LastNumber(Reached(events)).Some?
    ensures forall month: nat :: !InUse(Reached(events), NextInvoiceNumber(Reached(events), month))
  {
    if events != [] {
      var invoices, event := Reached(events[..|events| - 1]), events[|events| - 1];
      ReachedIsSound(events[..|events| - 1]);
      match event.task {
        case ByHand(tenant, amount) =>
          HandMadeReadable(YearOf(event.month), IssuedSince(invoices, YearOf(event.month)));
          SoundWithOneMore(invoices,
                           Invoice(tenant, NextInvoiceNumber(invoices, event.month), amount, event.month, false));
        case Monthly(subs) => RunKeepsSound(invoices, subs, InvoicedIn(invoices, event.month), event.month);
        case Marking(i, isVoid) => if i < |invoices| { MarkingKeepsSound(invoices, i, isVoid); }
      }
    }
    var all := Reached(events);
    assert all != [] ==> all[|all| - 1] in all;
    forall month: nat
      ensures !InUse(all, NextInvoiceNumber(all, month))
    {
      HandMadeIsFree(all, month);
    }
  }

  lemma {:induction false} IssuedGrows(invoices: seq<Invoice>, j: nat, year: nat)
    requires j < |invoices| && YearOf(invoices[j].month) >= year
    ensures IssuedSince(invoices[..j], year) < IssuedSince(invoices, year)
  {
    var n := |invoices| - 1;
    if j < n {
      assert invoices[..n][..j] == invoices[..j];
      IssuedGrows(invoices[..n], j, year);
    }
  }

  lemma HandMadeIsFree(invoices: seq<Invoice>, month: nat)
    requires Sound(invoices)
    ensures !InUse(invoices, NextInvoiceNumber(invoices, month))
  {
    var year := YearOf(month);
    HandMadeIsNotPlain(year, IssuedSince(invoices, year));
    forall i <- invoices
      ensures i.number != NextInvoiceNumber(invoices, month)
    {
      var j :| 0 <= j < |invoices| && invoices[j] == i;
      assert RowForm(invoices, j);
      HandMadeTellsApart(YearOf(i.month), IssuedSince(invoices[..j], YearOf(i.month)), year,
                         IssuedSince(invoices, year));
      if YearOf(i.month) == year { IssuedGrows(invoices, j, year); }
    }
  }

  // ----- a run that is stopped -----

  /** One invoice by hand, the monthly run, and two more by hand. */
  function HandRunHand(tenant: string, subs: seq<Subscription>, month: nat): seq<Event> {
    [Event(month, ByHand(tenant, 10)), Event(month, Monthly(subs)), Event(month, ByHand(tenant, 10)),
     Event(month, ByHand(tenant, 10))]
  }

  lemma {:induction false} AllDue(subs: seq<Subscription>, invoiced: set<string>)
    requires forall sub <- subs :: IsEligible(sub) && sub.tenant !in invoiced
    ensures Due(subs, invoiced) == subs
  {
    if subs != [] {
      AllDue(subs[..|subs| - 1], invoiced);
      assert subs[|subs| - 1] in subs;
    }
  }

  lemma {:induction false} AllIssued(invoices: seq<Invoice>, year: nat)
    requires forall i <- invoices :: YearOf(i.month) >= year
    ensures IssuedSince(invoices, year) == |invoices|
  {
    if invoices != [] {
      AllIssued(invoices[..|invoices| - 1], year);
      assert invoices[|invoices| - 1] in invoices;
    }
  }

  /** A run after a first invoice numbered `base`: three rows, the last of them numbered six above it. */
  lemma RunOfThree(first: Invoice, subs: seq<Subscription>, month: nat, base: nat)
    requires first.month == month && !first.isVoid && NumberValue(first.number) == Some(base)
    requires |subs| == 3 && forall sub <- subs :: IsEligible(sub) && sub.tenant != first.tenant
    ensures
      var p := Generate([first], subs, month);
      && p.created == 3 && |p.invoices| == 4 && p.invoices[3].number == NumberInRun(base, 2)
      && (forall i <- p.invoices :: i.month == month)
  {
    var invoiced, p := InvoicedIn([first], month), Generate([first], subs, month);
    assert invoiced == {first.tenant} by { assert first in [first]; }
    AllDue(subs, invoiced);
    NumbersAreFresh([first], subs, invoiced, month);
    RunIsRowsFor([first], subs, invoiced, month);
    RunTexts([first], subs, invoiced, month, base, 2);
    assert TextAt(p.invoices, |[first]|, 2, NumberInRun(base, 2));
    MonthsOfRun(p, [first], Due(subs, invoiced), month);
  }

  lemma MonthsOfRun(p: Progress, invoices: seq<Invoice>, due: seq<Subscription>, month: nat)
    requires RowsFor(p, invoices, due, month) && forall i <- invoices :: i.month == month
    ensures forall i <- p.invoices :: i.month == month
  {
    forall j | 0 <= j < |p.invoices|
      ensures p.invoices[j].month == month
    {
      if j < |invoices| {
        assert p.invoices[j] == invoices[j];
      } else {
        assert RowFor(p.invoices, |invoices| + (j - |invoices|), due[j - |invoices|], month);
      }
    }
  }

  lemma ReachedOneMore(events: seq<Event>, event: Event)
    ensures Reached(events + [event]) == Perform(Reached(events), event)
  {
    assert (events + [event])[..|events|] == events;
  }

  /** An invoice made by hand in a reachable table. */
  lemma MadeByHand(events: seq<Event>, tenant: string, month: nat)
    ensures
      var all := Reached(events);
      Reached(events + [Event(month, ByHand(tenant, 10))])
      == all + [Invoice(tenant, NextInvoiceNumber(all, month), 10, month, false)]
  {
    ReachedIsSound(events);
    ReachedOneMore(events, Event(month, ByHand(tenant, 10)));
  }

  /** The number of an invoice made by hand when all the invoices are of its month. */
  lemma NextReads(all: seq<Invoice>, month: nat)
    requires |all| < 99_999 && forall i <- all :: i.month == month
    ensures NumberValue(NextInvoiceNumber(all, month)) == Some(YearOf(month) * 100_000 + |all| + 1)
  {
    AllIssued(all, YearOf(month));
    HandMadeReads(YearOf(month), |all|);
  }

  lemma FirstTwo(tenant: string, subs: seq<Subscription>, month: nat)
    requires |subs| == 3 && forall sub <- subs :: IsEligible(sub) && sub.tenant != tenant
    ensures
      var all := Reached(HandRunHand(tenant, subs, month)[..2]);
      && |all| == 4 && (forall i <- all :: i.month == month)
      && all[3].number == NumberInRun(YearOf(month) * 100_000 + 1, 2)
  {
    var events := HandRunHand(tenant, subs, month);
    var first := Invoice(tenant, NextInvoiceNumber([], month), 10, month, false);
    MadeByHand([], tenant, month);
    NextReads([], month);
    assert events[..1] == [] + [events[0]] && Reached([]) + [first] == [first];
    ReachedOneMore(events[..1], events[1]);
    assert events[..2] == events[..1] + [events[1]];
    RunOfThree(first, subs, month, YearOf(month) * 100_000 + 1);
  }

  /** One more of the month by hand, in a table of that month. */
  lemma AppendedByHand(all: seq<Invoice>, tenant: string, month: nat)
    requires |all| < 99_999 && forall i <- all :: i.month == month
    ensures
      var more := all + [Invoice(tenant, NextInvoiceNumber(all, month), 10, month, false)];
      (forall i <- more :: i.month == month) && LastNumber(more) == Some(YearOf(month) * 100_000 + |all| + 1)
  {
    NextReads(all, month);
  }

  lemma OneMoreByHand(events: seq<Event>, tenant: string, month: nat)
    requires |Reached(events)| < 99_999 && forall i <- Reached(events) :: i.month == month
    ensures
      var all, more := Reached(events), Reached(events + [Event(month, ByHand(tenant, 10))]);
      && |more| == |all| + 1 && all <= more && (forall i <- more :: i.month == month)
      && LastNumber(more) == Some(YearOf(month) * 100_000 + |all| + 1)
  {
    MadeByHand(events, tenant, month);
    AppendedByHand(Reached(events), tenant, month);
  }

  lemma LastTwo(events: seq<Event>)
    requires |events| == 4
    ensures events[..2] + [events[2]] == events[..3] && events[..3] + [events[3]] == events
  {
  }

  /** By hand the newest number is now five above the first one's. */
  lemma HandRunHandReached(tenant: string, subs: seq<Subscription>, month: nat)
    requires |subs| == 3 && forall sub <- subs :: IsEligible(sub) && sub.tenant != tenant
    ensures
      var all := Reached(HandRunHand(tenant, subs, month));
      && |all| == 6 && (forall i <- all :: i.month == month)
      && LastNumber(all) == Some(YearOf(month) * 100_000 + 6)
      && all[3].number == NumberInRun(YearOf(month) * 100_000 + 1, 2)
  {
    var events := HandRunHand(tenant, subs, month);
    FirstTwo(tenant, subs, month);
    LastTwo(events);
    OneMoreByHand(events[..2], tenant, month);
    OneMoreByHand(events[..3], tenant, month);
  }

  lemma SameNumberLater(base: nat)
    ensures NumberInRun(base + 5, 0) == NumberInRun(base, 2)
  {
    assert Triangle(2) == 3;
  }

  lemma LaterNumberIsInUse(all: seq<Invoice>, base: nat)
    requires |all| > 3 && all[3].number == NumberInRun(base, 2)
    ensures InUse(all, NumberInRun(base + 5, 0))
  {
    SameNumberLater(base);
    assert all[3] in all;
  }

  lemma NextRunStops(all: seq<Invoice>, subs: seq<Subscription>, month: nat, base: nat)
    requires |all| > 3 && LastNumber(all) == Some(base + 5) && all[3].number == NumberInRun(base, 2)
    requires (forall i <- all :: i.month == month) && subs != [] && forall sub <- subs :: IsEligible(sub)
    ensures Due(subs, InvoicedIn(all, month + 1)) == subs && Generate(all, subs, month + 1).failed
  {
    assert InvoicedIn(all, month + 1) == {};
    AllDue(subs, {});
    LaterNumberIsInUse(all, base);
    FirstNumberTaken(all, subs, month + 1, base + 5);
  }

  /** The next month's run is stopped at its first row, whose number is that of the first run's third. */
  lemma HandMadeNumbersStopTheRun(tenant: string, subs: seq<Subscription>, month: nat)
    requires |subs| == 3 && forall sub <- subs :: IsEligible(sub) && sub.tenant != tenant
    ensures
      var all := Reached(HandRunHand(tenant, subs, month));
      Due(subs, InvoicedIn(all, month + 1)) == subs && Generate(all, subs, month + 1).failed
  {
    HandRunHandReached(tenant, subs, month);
    NextRunStops(Reached(HandRunHand(tenant, subs, month)), subs, month, YearOf(month) * 100_000 + 1);
  }

  // ----- as the service runs it -----

  function Eligible(subs: seq<Subscription>): nat {
    if subs == [] then 0 else Eligible(subs[..|subs| - 1]) + if IsEligible(subs[|subs| - 1]) then 1 else 0
  }

  class InvoiceTable {
    var invoices: seq<Invoice>

    constructor (invoices: seq<Invoice>)
      ensures this.invoices == invoices
    {
      this.invoices := invoices;
    }

    /** `stopped` when a number in use made the database refuse a row; rows written before stay. */
    method GenerateMonthlyInvoices(subs: seq<Subscription>, month: nat)
      returns (generated: nat, skipped: int, stopped: bool)
      modifies this
      ensures Progress(invoices, generated, stopped) == Generate(old(invoices), subs, month)
      ensures !stopped ==> generated + skipped == Eligible(subs)
    {
      var invoicedTenantIds := InvoicedIn(invoices, month);
      var active := 0;
      generated, stopped := 0, false;
      for n := 0 to |subs|
        invariant Progress(invoices, generated, false) == InvoiceAll(old(invoices), subs[..n], invoicedTenantIds, month)
        invariant active == Eligible(subs[..n])
      {
        assert subs[..n + 1][..n] == subs[..n];
        var sub := subs[n];
        if IsEligible(sub) {
          active := active + 1;
          if sub.tenant !in invoicedTenantIds {
            var number := InvoiceNumber(LastNumber(invoices), generated);
            if InUse(invoices, number) {
              StoppedForGood(old(invoices), subs, invoicedTenantIds, month, n + 1);
              return generated, 0, true;
            }
            invoices := invoices + [Invoice(sub.tenant, number, Price(sub), month, false)];
            generated := generated + 1;
          }
        }
      }
      assert subs[..|subs|] == subs;
      skipped := active - generated;
    }

    /** Counts the year's invoices for the number; `created` is false when the database refuses the number. */
    method CreateInvoice(tenant: string, amount: int, month: nat) returns (created: bool)
      modifies this
      ensures invoices == Perform(old(invoices), Event(month, ByHand(tenant, amount)))
      ensures created <==> CreateByHand(old(invoices), tenant, amount, month).Some?
    {
      var count := 0;
      for n := 0 to |invoices|
        invariant invoices == old(invoices) && count == IssuedSince(invoices[..n], YearOf(month))
      {
        assert invoices[..n + 1][..n] == invoices[..n];
        if YearOf(invoices[n].month) >= YearOf(month) { count := count + 1; }
      }
      assert invoices[..|invoices|] == invoices;
      var number := HandMadeNumber(YearOf(month), count);
      created := !InUse(invoices, number);
      if created { invoices := invoices + [Invoice(tenant, number, amount, month, false)]; }
    }

    method UpdateInvoice(i: nat, isVoid: bool, month: nat) returns (found: bool)
      modifies this
      ensures invoices == Perform(old(invoices), Event(month, Marking(i, isVoid)))
      ensures found <==> i < |old(invoices)|
    {
      found := i < |invoices|;
      if found { invoices := invoices[i := invoices[i].(isVoid := isVoid)]; }
    }
  }

  lemma {:induction false} StoppedForGood(invoices: seq<Invoice>, subs: seq<Subscription>, invoiced: set<string>,
                                          month: nat, n: nat)
    requires n <= |subs| && InvoiceAll(invoices, subs[..n], invoiced, month).failed
    ensures InvoiceAll(invoices, subs, invoiced, month) == InvoiceAll(invoices, subs[..n], invoiced, month)
    decreases |subs|
  {
    if n == |subs| {
      assert subs[..n] == subs;
    } else {
      assert subs[..|subs| - 1][..n] == subs[..n];
      StoppedForGood(invoices, subs[..|subs| - 1], invoiced, month, n);
    }
  }
}
