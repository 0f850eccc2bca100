/**
 The notification centre's reconciliation: it opens an alert for every condition that holds and has
 none open, resolves the open alerts whose condition is gone, and reports each event once.
 */
module Notifications {
  import opened Prelude

  datatype NotificationType =
    | InventoryLow | InventoryOut | ScaleToleranceExceeded | PositiveWasteHigh | NegativeDifference | CashDifference
    | CashOpenTooLong | MemberBirthday | MemberPendingContribution | SecurityAlert | EmergencyActive | System
    | TrialExpiring | InvoiceOverdue | SuspensionWarning | PlanLimitWarning

  datatype Status = Unread | Read | InReview | Resolved | Archived

  datatype Notification = Notification(kind: NotificationType, userId: Option<string>, entityType: Option<string>,
                                       entityId: Option<string>, status: Status)

  predicate IsOpen(status: Status) {
    status in {Unread, Read, InReview}
  }

  predicate IsDynamic(t: NotificationType) {
    t in {InventoryLow, InventoryOut, MemberBirthday, MemberPendingContribution, SecurityAlert, EmergencyActive,
          CashOpenTooLong}
  }

  predicate IsEvent(t: NotificationType) {
    t in {ScaleToleranceExceeded, PositiveWasteHigh, NegativeDifference, CashDifference}
  }

  // ----- keys -----

  function TypeName(t: NotificationType): string {
    match t
    case InventoryLow => "INVENTORY_LOW"
    case InventoryOut => "INVENTORY_OUT"
    case ScaleToleranceExceeded => "SCALE_TOLERANCE_EXCEEDED"
    case PositiveWasteHigh => "POSITIVE_WASTE_HIGH"
    case NegativeDifference => "NEGATIVE_DIFFERENCE"
    case CashDifference => "CASH_DIFFERENCE"
    case CashOpenTooLong => "CASH_OPEN_TOO_LONG"
    case MemberBirthday => "MEMBER_BIRTHDAY"
    case MemberPendingContribution => "MEMBER_PENDING_CONTRIBUTION"
    case SecurityAlert => "SECURITY_ALERT"
    case EmergencyActive => "EMERGENCY_ACTIVE"
    case System => "SYSTEM"
    case TrialExpiring => "TRIAL_EXPIRING"
    case InvoiceOverdue => "INVOICE_OVERDUE"
    case SuspensionWarning => "SUSPENSION_WARNING"
    case PlanLimitWarning => "PLAN_LIMIT_WARNING"
  }

  function OrDash(s: Option<string>): string {
    if s.Some? then s.value else "-"
  }

  function NotificationKey(n: Notification): string {
    TypeName(n.kind) + ":" + (OrDash(n.entityType) + ":" + (OrDash(n.entityId) + ":" + OrDash(n.userId)))
  }

  // ----- the facts a sync reads -----

  datatype StockFact = StockFact(productId: string, current: int, minimum: int)
  datatype SessionFact = SessionFact(id: string, openedById: string)
  datatype BirthdayFact = BirthdayFact(memberId: string, daysUntil: nat)
  datatype ItemFact = ItemFact(id: string, soldById: string, waste: int)
  datatype CloseFact = CloseFact(id: string, openedById: string, closedById: Option<string>)

  /** Weights are in thousandths of a gram. */
  datatype Facts = Facts(
    stock: seq<StockFact>, longSessions: seq<SessionFact>, receivables: seq<string>, birthdays: seq<BirthdayFact>,
    emergencyLock: Option<string>, showSecurityBadges: bool, requireAccessLink: bool, activeAccessLinks: nat,
    maxWastePerLine: nat, tolerance: seq<ItemFact>, wasted: seq<ItemFact>, negative: seq<ItemFact>,
    cashDifferences: seq<CloseFact>)

  function StockCondition(f: StockFact): Option<Notification> {
    if f.current <= 0 then Some(Notification(InventoryOut, None, Some("inventory"), Some(f.productId), Unread))
    else if f.minimum > 0 && f.current <= f.minimum then
      Some(Notification(InventoryLow, None, Some("inventory"), Some(f.productId), Unread))
    else None
  }

  function SessionCondition(f: SessionFact): Option<Notification> {
    Some(Notification(CashOpenTooLong, Some(f.openedById), Some("pos_session"), Some(f.id), Unread))
  }

  function ReceivableCondition(id: string): Option<Notification> {
    Some(Notification(MemberPendingContribution, None, Some("receivable"), Some(id), Unread))
  }

  function BirthdayCondition(f: BirthdayFact): Option<Notification> {
    if f.daysUntil > 7 then None
    else Some(Notification(MemberBirthday, None, Some("member"), Some(f.memberId), Unread))
  }

  function EmergencyCondition(f: Facts): Option<Notification> {
    if f.emergencyLock.None? then None
    else Some(Notification(EmergencyActive, None, Some("emergency_lock"), f.emergencyLock, Unread))
  }

  function AccessCondition(f: Facts): Option<Notification> {
    if f.showSecurityBadges && f.requireAccessLink && f.activeAccessLinks == 0 && f.emergencyLock.None?
    then Some(Notification(SecurityAlert, None, Some("security"), Some("access-link-missing"), Unread))
    else None
  }

  /** What the items of a table call for, in order. */
  function Called<T>(rows: seq<T>, call: T -> Option<Notification>): seq<Notification> {
    if rows == [] then []
    else
      var rest := Called(rows[..|rows| - 1], call);
      match call(rows[|rows| - 1])
      case None => rest
      case Some(n) => rest + [n]
  }

  function Optional(n: Option<Notification>): seq<Notification> {
    if n.Some? then [n.value] else []
  }

  /** The conditions that hold, in the order they are raised. */
  function Conditions(f: Facts): seq<Notification> {
    Called(f.stock, StockCondition) + Called(f.longSessions, SessionCondition)
      + Called(f.receivables, ReceivableCondition)
    + Called(f.birthdays, BirthdayCondition) + Optional(EmergencyCondition(f)) + Optional(AccessCondition(f))
  }

  function ToleranceEvent(i: ItemFact): Option<Notification> {
    Some(Notification(ScaleToleranceExceeded, Some(i.soldById), Some("sale_item"), Some(i.id), Unread))
  }

  function WasteThreshold(f: Facts): int {
    Max(f.maxWastePerLine * 2, 100)
  }

  function WasteEvent(threshold: int): ItemFact -> Option<Notification> {
    (i: ItemFact) =>
      if i.waste < threshold then None
      else Some(Notification(PositiveWasteHigh, Some(i.soldById), Some("sale_item"), Some(i.id), Unread))
  }

  function NegativeEvent(i: ItemFact): Option<Notification> {
    Some(Notification(NegativeDifference, Some(i.soldById), Some("sale_item"), Some(i.id), Unread))
  }

  function CloseEvent(s: CloseFact): Option<Notification> {
    var recipient := if s.closedById.Some? then s.closedById.value else s.openedById;
    Some(Notification(CashDifference, Some(recipient), Some("pos_session"), Some(s.id), Unread))
  }

  function Events(f: Facts): seq<Notification> {
    Called(f.tolerance, ToleranceEvent) + Called(f.wasted, WasteEvent(WasteThreshold(f)))
      + Called(f.negative, NegativeEvent)
    + Called(f.cashDifferences, CloseEvent)
  }

  // ----- the sync -----

  type Key = Notification -> string

  function KeysOf(rows: seq<Notification>, key: Key): set<string> {
    set n | n in rows :: key(n)
  }

  function OpenKeys(rows: seq<Notification>, key: Key): set<string> {
    set n | n in rows && IsOpen(n.status) :: key(n)
  }

  function EventKeys(rows: seq<Notification>, key: Key): set<string> {
    set n | n in rows && IsEvent(n.kind) :: key(n)
  }

  /** Adds each wanted notification whose key is not there yet, and its key. */
  function AddMissing(rows: seq<Notification>, keys: set<string>, wanted: seq<Notification>, key: Key)
    : (seq<Notification>, set<string>)
  {
    if wanted == [] then (rows, keys)
    else
      var (rows', keys') := AddMissing(rows, keys, wanted[..|wanted| - 1], key);
      var n := wanted[|wanted| - 1];
      if key(n) in keys' then (rows', keys') else (rows' + [n], keys' + {key(n)})
  }

  predicate IsStale(n: Notification, active: set<string>, key: Key) {
    IsOpen(n.status) && IsDynamic(n.kind) && key(n) !in active
  }

  /** Of the first `n` rows, those whose condition is gone are resolved. */
  function ResolveStale(rows: seq<Notification>, n: nat, active: set<string>, key: Key): seq<Notification> {
    seq(|rows|, i requires 0 <= i < |rows| =>
      if i < n && IsStale(rows[i], active, key) then rows[i].(status := Resolved) else rows[i])
  }

  function Reconcile(rows: seq<Notification>, conditions: seq<Notification>, events: seq<Notification>, key: Key)
    : seq<Notification>
  {
    var raised := AddMissing(rows, OpenKeys(rows, key), conditions, key).0;
    var kept := ResolveStale(raised, |rows|, KeysOf(conditions, key), key);
    AddMissing(kept, EventKeys(kept, key), events, key).0
  }

  function Sync(rows: seq<Notification>, f: Facts): seq<Notification> {
    Reconcile(rows, Conditions(f), Events(f), NotificationKey)
  }

  // ----- what users do with a notification they can see -----

  datatype Action =
    | Syncing(facts: Facts)
    | Reading(index: nat)
    | ReadingAll(visible: Notification -> bool)
    | Reviewing(index: nat)
    | Resolving(index: nat)
    | Archiving(index: nat)

  function SetStatus(rows: seq<Notification>, i: nat, status: Status): seq<Notification> {
    if i < |rows| then rows[i := rows[i].(status := status)] else rows
  }

  function Perform(rows: seq<Notification>, action: Action): seq<Notification> {
    match action
    case Syncing(facts) => Sync(rows, facts)
    case Reading(i) => if i < |rows| && rows[i].status == Unread then SetStatus(rows, i, Read) else rows
    case ReadingAll(visible) =>
      seq(|rows|, i requires 0 <= i < |rows| =>
        if visible(rows[i]) && rows[i].status == Unread then rows[i].(status := Read) else rows[i])
    case Reviewing(i) => SetStatus(rows, i, InReview)
    case Resolving(i) => SetStatus(rows, i, Resolved)
    case Archiving(i) => SetStatus(rows, i, Archived)
  }

  function Run(rows: seq<Notification>, actions: seq<Action>): seq<Notification> {
    if actions == [] then rows else Perform(Run(rows, actions[..|actions| - 1]), actions[|actions| - 1])
  }
}
