/** What a sync leaves open and what it reports, told from the facts it reads. */
module NotificationEffects {
  import opened Prelude
  import opened Notifications
  import opened NotificationTheorems

  // ----- what the facts call for -----

  /** The entity that a notification is about, and whom it is for. */
  predicate IsAbout(n: Notification, entityType: string, entityId: string, user: string) {
    OrDash(n.entityType) == entityType && OrDash(n.entityId) == entityId && OrDash(n.userId) == user
  }

  /** The facts call for this alert as long as they stand. */
  predicate CallsFor(f: Facts, n: Notification) {
    match n.kind
    case InventoryOut => exists s <- f.stock :: s.current <= 0 && IsAbout(n, "inventory", s.productId, "-")
    case InventoryLow => exists s <- f.stock :: 0 < s.current <= s.minimum && IsAbout(n, "inventory", s.productId, "-")
    case CashOpenTooLong => exists s <- f.longSessions :: IsAbout(n, "pos_session", s.id, s.openedById)
    case MemberPendingContribution => exists id <- f.receivables :: IsAbout(n, "receivable", id, "-")
    case MemberBirthday => exists b <- f.birthdays :: b.daysUntil <= 7 && IsAbout(n, "member", b.memberId, "-")
    case EmergencyActive => f.emergencyLock.Some? && IsAbout(n, "emergency_lock", f.emergencyLock.value, "-")
    case SecurityAlert =>
      && f.showSecurityBadges && f.requireAccessLink && f.activeAccessLinks == 0 && f.emergencyLock.None?
      && IsAbout(n, "security", "access-link-missing", "-")
    case _ => false
  }

  /** The facts tell of this event: who sold the item, or who closed the till, else who opened it, is to know. */
  predicate TellsOf(f: Facts, n: Notification) {
    match n.kind
    case ScaleToleranceExceeded => exists i <- f.tolerance :: IsAbout(n, "sale_item", i.id, i.soldById)
    case PositiveWasteHigh =>
      exists i <- f.wasted :: 2 * f.maxWastePerLine <= i.waste && 100 <= i.waste
        && IsAbout(n, "sale_item", i.id, i.soldById)
    case NegativeDifference => exists i <- f.negative :: IsAbout(n, "sale_item", i.id, i.soldById)
    case CashDifference =>
      exists s <- f.cashDifferences ::
        IsAbout(n, "pos_session", s.id, if s.closedById.None? then s.openedById else s.closedById.value)
    case _ => false
  }

  lemma {:induction false} CalledAre<T>(rows: seq<T>, call: T -> Option<Notification>)
    ensures forall n :: n in Called(rows, call) <==> exists row <- rows :: call(row) == Some(n)
  {
    if rows != [] {
      var init, last := rows[..|rows| - 1], rows[|rows| - 1];
      assert rows == init + [last];
      CalledAre(init, call);
    }
  }

  /** What holds of every notification that a row calls for holds of all that are called for. */
  lemma CalledAll<T>(rows: seq<T>, call: T -> Option<Notification>, p: Notification -> bool)
    requires forall row <- rows :: call(row).Some? ==> p(call(row).value)
    ensures forall n <- Called(rows, call) :: p(n)
  {
    CalledAre(rows, call);
  }

  function IsWanted(f: Facts): Notification -> bool {
    (n: Notification) => n.status == Unread && CallsFor(f, n)
  }

  lemma StockIsCalledFor(f: Facts, s: StockFact)
    requires s in f.stock
    ensures StockCondition(s).Some? ==> IsWanted(f)(StockCondition(s).value)
  {
  }

  lemma SessionIsCalledFor(f: Facts, s: SessionFact)
    requires s in f.longSessions
    ensures SessionCondition(s).Some? ==> IsWanted(f)(SessionCondition(s).value)
  {
  }

  lemma ReceivableIsCalledFor(f: Facts, id: string)
    requires id in f.receivables
    ensures ReceivableCondition(id).Some? ==> IsWanted(f)(ReceivableCondition(id).value)
  {
  }

  lemma BirthdayIsCalledFor(f: Facts, b: BirthdayFact)
    requires b in f.birthdays
    ensures BirthdayCondition(b).Some? ==> IsWanted(f)(BirthdayCondition(b).value)
  {
  }

  lemma SingleConditions(f: Facts)
    ensures forall n <- Optional(EmergencyCondition(f)) + Optional(AccessCondition(f)) :: IsWanted(f)(n)
  {
  }

  /** What is raised is called for. */
  lemma ConditionsAreCalledFor(f: Facts)
    ensures forall n <- Conditions(f) :: IsWanted(f)(n)
  {
    forall s <- f.stock ensures StockCondition(s).Some? ==> IsWanted(f)(StockCondition(s).value) {
      StockIsCalledFor(f, s);
    }
    forall s <- f.longSessions ensures SessionCondition(s).Some? ==> IsWanted(f)(SessionCondition(s).value) {
      SessionIsCalledFor(f, s);
    }
    forall id <- f.receivables ensures ReceivableCondition(id).Some? ==> IsWanted(f)(ReceivableCondition(id).value) {
      ReceivableIsCalledFor(f, id);
    }
    forall b <- f.birthdays ensures BirthdayCondition(b).Some? ==> IsWanted(f)(BirthdayCondition(b).value) {
      BirthdayIsCalledFor(f, b);
    }
    CalledAll(f.stock, StockCondition, IsWanted(f));
    CalledAll(f.longSessions, SessionCondition, IsWanted(f));
    CalledAll(f.receivables, ReceivableCondition, IsWanted(f));
    CalledAll(f.birthdays, BirthdayCondition, IsWanted(f));
    SingleConditions(f);
  }

  lemma EventsAreToldOf(f: Facts)
    ensures forall n <- Events(f) :: n.status == Unread && TellsOf(f, n)
  {
    CalledAre(f.tolerance, ToleranceEvent);
    CalledAre(f.wasted, WasteEvent(WasteThreshold(f)));
    CalledAre(f.negative, NegativeEvent);
    CalledAre(f.cashDifferences, CloseEvent);
  }

  lemma CalledHas<T>(rows: seq<T>, call: T -> Option<Notification>, row: T)
    requires row in rows && call(row).Some?
    ensures call(row).value in Called(rows, call)
  {
    CalledAre(rows, call);
  }

  /** What is called for is raised. */
  lemma CalledForIsRaised(f: Facts, n: Notification) returns (c: Notification)
    requires CallsFor(f, n)
    ensures c in Conditions(f) && SameFourParts(c, n)
  {
    match n.kind
    case InventoryOut =>
      var s :| s in f.stock && s.current <= 0 && IsAbout(n, "inventory", s.productId, "-");
      CalledHas(f.stock, StockCondition, s);
      c := StockCondition(s).value;
    case InventoryLow =>
      var s :| s in f.stock && 0 < s.current <= s.minimum && IsAbout(n, "inventory", s.productId, "-");
      CalledHas(f.stock, StockCondition, s);
      c := StockCondition(s).value;
    case CashOpenTooLong =>
      var s :| s in f.longSessions && IsAbout(n, "pos_session", s.id, s.openedById);
      CalledHas(f.longSessions, SessionCondition, s);
      c := SessionCondition(s).value;
    case MemberPendingContribution =>
      var id :| id in f.receivables && IsAbout(n, "receivable", id, "-");
      CalledHas(f.receivables, ReceivableCondition, id);
      c := ReceivableCondition(id).value;
    case MemberBirthday =>
      var b :| b in f.birthdays && b.daysUntil <= 7 && IsAbout(n, "member", b.memberId, "-");
      CalledHas(f.birthdays, BirthdayCondition, b);
      c := BirthdayCondition(b).value;
    case EmergencyActive => c := EmergencyCondition(f).value;
    case SecurityAlert => c := AccessCondition(f).value;
  }

  lemma ToldOfIsReported(f: Facts, n: Notification) returns (e: Notification)
    requires TellsOf(f, n)
    ensures e in Events(f) && SameFourParts(e, n)
  {
    match n.kind
    case ScaleToleranceExceeded =>
      var i :| i in f.tolerance && IsAbout(n, "sale_item", i.id, i.soldById);
      CalledHas(f.tolerance, ToleranceEvent, i);
      e := ToleranceEvent(i).value;
    case PositiveWasteHigh =>
      var i :| i in f.wasted && 2 * f.maxWastePerLine <= i.waste && 100 <= i.waste
               && IsAbout(n, "sale_item", i.id, i.soldById);
      CalledHas(f.wasted, WasteEvent(WasteThreshold(f)), i);
      e := WasteEvent(WasteThreshold(f))(i).value;
    case NegativeDifference =>
      var i :| i in f.negative && IsAbout(n, "sale_item", i.id, i.soldById);
      CalledHas(f.negative, NegativeEvent, i);
      e := NegativeEvent(i).value;
    case CashDifference =>
      var s :| s in f.cashDifferences
               && IsAbout(n, "pos_session", s.id, if s.closedById.None? then s.openedById else s.closedById.value);
      CalledHas(f.cashDifferences, CloseEvent, s);
      e := CloseEvent(s).value;
  }

  // ----- what is open after a sync -----

  /** It is there, neither resolved nor archived. */
  predicate IsOpenFor(rows: seq<Notification>, n: Notification) {
    exists m <- rows :: m.status !in {Resolved, Archived} && SameFourParts(m, n)
  }

  predicate IsThere(rows: seq<Notification>, n: Notification) {
    exists m <- rows :: SameFourParts(m, n)
  }

  /** A key that a condition of the facts has is that condition's alone. */
  lemma SameAsCondition(f: Facts, c: Notification, n: Notification)
    requires IdsHaveNoColon(f) && c in Conditions(f) && NotificationKey(n) == NotificationKey(c)
    ensures SameFourParts(n, c) && CallsFor(f, n)
  {
    assert c in Conditions(f) + Events(f);
    SyncKeysAreFaithful(f, c, n);
    ConditionsAreCalledFor(f);
  }

  lemma OpenOnesAre(status: Status)
    ensures IsOpen(status) <==> status !in {Resolved, Archived}
  {
  }

  lemma OpenIsCalledFor(rows: seq<Notification>, f: Facts, m: Notification)
    requires IdsHaveNoColon(f) && m in Sync(rows, f) && IsOpen(m.status) && IsDynamic(m.kind)
    ensures CallsFor(f, m)
  {
    SyncConverges(rows, f);
    assert NotificationKey(m) in OpenDynamicKeys(Sync(rows, f), NotificationKey);
    var c :| c in Conditions(f) && NotificationKey(c) == NotificationKey(m);
    SameAsCondition(f, c, m);
  }

  lemma CalledForIsOpen(rows: seq<Notification>, f: Facts, n: Notification) returns (m: Notification)
    requires IdsHaveNoColon(f) && CallsFor(f, n)
    ensures m in Sync(rows, f) && IsOpen(m.status) && SameFourParts(m, n)
  {
    SyncConverges(rows, f);
    var c := CalledForIsRaised(f, n);
    assert NotificationKey(c) in KeysOf(Conditions(f), NotificationKey);
    m :| m in Sync(rows, f) && IsOpen(m.status) && IsDynamic(m.kind) && NotificationKey(m) == NotificationKey(c);
    SameAsCondition(f, c, m);
  }

  /** What is called for depends on the four parts only. */
  lemma SamePartsCalledFor(f: Facts, m: Notification, n: Notification)
    requires SameFourParts(m, n)
    ensures CallsFor(f, m) <==> CallsFor(f, n)
  {
  }

  /** After a sync an alert of any kind that comes and goes is open exactly when the facts call for it. */
  lemma OpenExactlyWhenCalledFor(rows: seq<Notification>, f: Facts, n: Notification)
    requires IdsHaveNoColon(f) && IsDynamic(n.kind)
    ensures IsOpenFor(Sync(rows, f), n) <==> CallsFor(f, n)
  {
    if IsOpenFor(Sync(rows, f), n) {
      var m :| m in Sync(rows, f) && m.status !in {Resolved, Archived} && SameFourParts(m, n);
      OpenOnesAre(m.status);
      OpenIsCalledFor(rows, f, m);
      SamePartsCalledFor(f, m, n);
    }
    if CallsFor(f, n) {
      var m := CalledForIsOpen(rows, f, n);
      OpenOnesAre(m.status);
    }
  }

  /** And every event that the facts tell of is reported, if not now then before. */
  lemma ToldOfIsThere(rows: seq<Notification>, f: Facts, n: Notification)
    requires IdsHaveNoColon(f) && TellsOf(f, n)
    ensures IsThere(Sync(rows, f), n)
  {
    var e := ToldOfIsReported(f, n);
    SyncIsReconcile(f);
    EventsAreReported(rows, Conditions(f), Events(f), NotificationKey, e);
    var m :| m in Sync(rows, f) && IsEvent(m.kind) && NotificationKey(m) == NotificationKey(e);
    assert e in Conditions(f) + Events(f);
    SyncKeysAreFaithful(f, e, m);
  }

  lemma AddedIsWanted(rows: seq<Notification>, f: Facts, i: nat)
    requires |rows| <= i < |Sync(rows, f)|
    ensures Sync(rows, f)[i] in Conditions(f) || Sync(rows, f)[i] in Events(f)
  {
    SyncIsReconcile(f);
    var raised, reported := ReconcileShape(rows, Conditions(f), Events(f), NotificationKey);
    var kept := ResolveStale(rows + raised, |rows|, KeysOf(Conditions(f), NotificationKey), NotificationKey);
    assert |kept| == |rows + raised|;
    if i < |kept| {
      assert kept[i] == raised[i - |rows|] && raised[i - |rows|] in raised;
    } else {
      assert reported[i - |kept|] in reported;
    }
  }

  /** A sync adds nothing but unread alerts that the facts call for and unread events that they tell of. */
  lemma AddedIsCalledFor(rows: seq<Notification>, f: Facts, i: nat)
    requires |rows| <= i < |Sync(rows, f)|
    ensures
      var n := Sync(rows, f)[i];
      n.status == Unread && (CallsFor(f, n) || TellsOf(f, n))
  {
    AddedIsWanted(rows, f, i);
    ConditionsAreCalledFor(f);
    EventsAreToldOf(f);
  }

  // ----- in the words of one product -----

  function StockAlert(kind: NotificationType, p: string): Notification {
    Notification(kind, None, Some("inventory"), Some(p), Unread)
  }

  /** After a sync a product is reported low exactly when it has some stock and at most its minimum, out at none. */
  lemma StockAlerts(rows: seq<Notification>, f: Facts, p: string)
    requires IdsHaveNoColon(f)
    ensures IsOpenFor(Sync(rows, f), StockAlert(InventoryLow, p)) <==>
            exists s <- f.stock :: s.productId == p && 0 < s.current <= s.minimum
    ensures IsOpenFor(Sync(rows, f), StockAlert(InventoryOut, p)) <==>
            exists s <- f.stock :: s.productId == p && s.current <= 0
  {
    OpenExactlyWhenCalledFor(rows, f, StockAlert(InventoryLow, p));
    OpenExactlyWhenCalledFor(rows, f, StockAlert(InventoryOut, p));
  }

  // ----- what users do -----

  /** What an action of a user makes of the status of row `i`; every other field, and every other row, stays. */
  function StatusAfter(n: Notification, i: nat, action: Action): Status
    requires !action.Syncing?
  {
    match action
    case Reading(index) => if i == index && n.status == Unread then Read else n.status
    case ReadingAll(visible) => if visible(n) && n.status == Unread then Read else n.status
    case Reviewing(index) => if i == index then InReview else n.status
    case Resolving(index) => if i == index then Resolved else n.status
    case Archiving(index) => if i == index then Archived else n.status
  }

  lemma ActionMeans(rows: seq<Notification>, action: Action)
    requires !action.Syncing?
    ensures
      var after := Perform(rows, action);
      && |after| == |rows|
      && forall i | 0 <= i < |rows| ::
           SameFourParts(after[i], rows[i]) && after[i].status == StatusAfter(rows[i], i, action)
  {
  }
}
