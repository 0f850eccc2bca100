/** The sync converges to the conditions that hold, settles at once, and reports no event twice. */
module NotificationTheorems {
  import opened Prelude
  import opened Notifications

  // ----- keys -----

  predicate NoColon(s: string) {
    forall i | 0 <= i < |s| :: s[i] != ':'
  }

  function FirstPart(s: string): string {
    if s == [] || s[0] == ':' then [] else [s[0]] + FirstPart(s[1..])
  }

  lemma {:induction false} FirstPartIs(a: string, rest: string)
    requires NoColon(a)
    ensures FirstPart(a + ":" + rest) == a
  {
    if a != [] {
      assert (a + ":" + rest)[1..] == a[1..] + ":" + rest;
      FirstPartIs(a[1..], rest);
    }
  }

  /** Joining with a colon can be undone when the first part has none. */
  lemma SameParts(a: string, rest: string, a': string, rest': string)
    requires NoColon(a) && NoColon(a')
    ensures a + ":" + rest == a' + ":" + rest' <==> a == a' && rest == rest'
  {
    FirstPartIs(a, rest);
    FirstPartIs(a', rest');
    if a + ":" + rest == a' + ":" + rest' {
      assert (a + ":" + rest)[|a| + 1..] == rest && (a' + ":" + rest')[|a'| + 1..] == rest';
    }
  }

  lemma ShortNamesHaveNoColon()
    ensures NoColon("INVENTORY_LOW") && NoColon("INVENTORY_OUT") && NoColon("CASH_DIFFERENCE") && NoColon("SYSTEM")
    ensures NoColon("MEMBER_BIRTHDAY") && NoColon("SECURITY_ALERT") && NoColon("TRIAL_EXPIRING")
    ensures NoColon("INVOICE_OVERDUE") && NoColon("EMERGENCY_ACTIVE")
  {
  }

  lemma LongNamesHaveNoColon()
    ensures NoColon("SCALE_TOLERANCE_EXCEEDED") && NoColon("POSITIVE_WASTE_HIGH") && NoColon("NEGATIVE_DIFFERENCE")
    ensures NoColon("CASH_OPEN_TOO_LONG") && NoColon("MEMBER_PENDING_CONTRIBUTION")
    ensures NoColon("SUSPENSION_WARNING") && NoColon("PLAN_LIMIT_WARNING")
  {
  }

  lemma TypeNamesHaveNoColon(t: NotificationType)
    ensures NoColon(TypeName(t))
  {
    ShortNamesHaveNoColon();
    LongNamesHaveNoColon();
  }

  /** What tells the names apart: their length and three of their letters. */
  function NameMark(name: string): (int, char, char, char) {
    if |name| < 2 then (0, ' ', ' ', ' ') else (|name|, name[0], name[1], name[|name| - 1])
  }

  lemma MarkOfName(t: NotificationType)
    ensures
      NameMark(TypeName(t)) ==
      match t
      case InventoryLow => (13, 'I', 'N', 'W')
      case InventoryOut => (13, 'I', 'N', 'T')
      case ScaleToleranceExceeded => (24, 'S', 'C', 'D')
      case PositiveWasteHigh => (19, 'P', 'O', 'H')
      case NegativeDifference => (19, 'N', 'E', 'E')
      case CashDifference => (15, 'C', 'A', 'E')
      case CashOpenTooLong => (18, 'C', 'A', 'G')
      case MemberBirthday => (15, 'M', 'E', 'Y')
      case MemberPendingContribution => (27, 'M', 'E', 'N')
      case SecurityAlert => (14, 'S', 'E', 'T')
      case EmergencyActive => (16, 'E', 'M', 'E')
      case System => (6, 'S', 'Y', 'M')
      case TrialExpiring => (14, 'T', 'R', 'G')
      case InvoiceOverdue => (15, 'I', 'N', 'E')
      case SuspensionWarning => (18, 'S', 'U', 'G')
      case PlanLimitWarning => (18, 'P', 'L', 'G')
  {
  }

  /** Two types have different names. */
  lemma TypeNamesDiffer(t: NotificationType, u: NotificationType)
    ensures TypeName(t) == TypeName(u) ==> t == u
  {
    MarkOfName(t);
    MarkOfName(u);
  }

  lemma KeyGivesType(m: Notification, n: Notification)
    requires NotificationKey(m) == NotificationKey(n)
    ensures m.kind == n.kind
  {
    TypeNamesHaveNoColon(m.kind);
    TypeNamesHaveNoColon(n.kind);
    SameParts(TypeName(m.kind), OrDash(m.entityType) + ":" + (OrDash(m.entityId) + ":" + OrDash(m.userId)),
              TypeName(n.kind), OrDash(n.entityType) + ":" + (OrDash(n.entityId) + ":" + OrDash(n.userId)));
    TypeNamesDiffer(m.kind, n.kind);
  }

  function Colons(s: string): nat {
    if s == [] then 0 else Colons(s[..|s| - 1]) + if s[|s| - 1] == ':' then 1 else 0
  }

  lemma {:induction false} ColonsAdd(a: string, b: string)
    ensures Colons(a + b) == Colons(a) + Colons(b)
  {
    if b == [] {
      assert a + b == a;
    } else {
      var n := |b| - 1;
      ColonsAdd(a, b[..n]);
      assert (a + b)[..|a| + n] == a + b[..n];
    }
  }

  lemma {:induction false} NoColonsCounted(s: string)
    ensures Colons(s) == 0 <==> NoColon(s)
  {
    if s != [] {
      var init := s[..|s| - 1];
      NoColonsCounted(init);
      assert NoColon(s) <==> NoColon(init) && s[|s| - 1] != ':' by {
        assert forall i | 0 <= i < |init| :: init[i] == s[i];
      }
    }
  }

  /** What a key says after the type's name. */
  function Tail(t: string, e: string, u: string): string {
    t + ":" + (e + ":" + u)
  }

  lemma ColonsOfTail(t: string, e: string, u: string)
    ensures Colons(Tail(t, e, u)) == Colons(t) + Colons(e) + Colons(u) + 2
  {
    ColonsAdd(t + ":", e + ":" + u);
    ColonsAdd(t, ":");
    ColonsAdd(e + ":", u);
    ColonsAdd(e, ":");
    assert ":"[..0] == [] && Colons(":") == 1;
  }

  /** Three parts without colons can be read back from the tail, whatever other parts are tried. */
  lemma TailReadBack(t: string, e: string, u: string, t': string, e': string, u': string)
    requires NoColon(t) && NoColon(e) && NoColon(u) && Tail(t', e', u') == Tail(t, e, u)
    ensures t' == t && e' == e && u' == u
  {
    ColonsOfTail(t, e, u);
    ColonsOfTail(t', e', u');
    NoColonsCounted(t); NoColonsCounted(e); NoColonsCounted(u);
    NoColonsCounted(t'); NoColonsCounted(e');
    SameParts(t, e + ":" + u, t', e' + ":" + u');
    SameParts(e, u, e', u');
  }

  /** With a colon in one of them there are other parts with the same tail. */
  lemma TailConfused(t: string, e: string, u: string) returns (t': string, e': string, u': string)
    requires !NoColon(t) || !NoColon(e) || !NoColon(u)
    ensures Tail(t', e', u') == Tail(t, e, u) && !(t' == t && e' == e && u' == u)
  {
    if !NoColon(t) {
      var i :| 0 <= i < |t| && t[i] == ':';
      t', e', u' := t[..i], t[i + 1..], e + ":" + u;
      assert t == t' + ":" + e';
      assert Tail(t', e', u') == t' + ":" + e' + ":" + (e + ":" + u);
    } else if !NoColon(e) {
      var i :| 0 <= i < |e| && e[i] == ':';
      t', e', u' := t, e[..i], e[i + 1..] + ":" + u;
      assert e == e' + ":" + e[i + 1..];
      assert e' + ":" + u' == e + ":" + u;
    } else {
      var i :| 0 <= i < |u| && u[i] == ':';
      t', e', u' := t, e + ":" + u[..i], u[i + 1..];
      assert u == u[..i] + ":" + u';
      assert e' + ":" + u' == e + ":" + u;
    }
  }

  /** What a key is made of; a missing part counts as a dash. */
  predicate SameFourParts(m: Notification, n: Notification) {
    && m.kind == n.kind && OrDash(m.entityType) == OrDash(n.entityType)
    && OrDash(m.entityId) == OrDash(n.entityId) && OrDash(m.userId) == OrDash(n.userId)
  }

  predicate ColonFree(n: Notification) {
    NoColon(OrDash(n.entityType)) && NoColon(OrDash(n.entityId)) && NoColon(OrDash(n.userId))
  }

  lemma KeyOfColonFree(m: Notification, n: Notification)
    requires ColonFree(m) && NotificationKey(n) == NotificationKey(m)
    ensures SameFourParts(n, m)
  {
    KeyGivesType(n, m);
    TypeNamesHaveNoColon(m.kind);
    SameParts(TypeName(m.kind), Tail(OrDash(m.entityType), OrDash(m.entityId), OrDash(m.userId)),
              TypeName(n.kind), Tail(OrDash(n.entityType), OrDash(n.entityId), OrDash(n.userId)));
    TailReadBack(OrDash(m.entityType), OrDash(m.entityId), OrDash(m.userId),
                 OrDash(n.entityType), OrDash(n.entityId), OrDash(n.userId));
  }

  lemma KeyConfused(m: Notification) returns (n: Notification)
    requires !ColonFree(m)
    ensures NotificationKey(n) == NotificationKey(m) && !SameFourParts(n, m)
  {
    var t, e, u := TailConfused(OrDash(m.entityType), OrDash(m.entityId), OrDash(m.userId));
    n := Notification(m.kind, Some(u), Some(t), Some(e), m.status);
  }

  /** A key belongs to one type, entity and user only, exactly when none of the three texts has a colon. */
  lemma KeyIsFaithfulExactlyWhen(m: Notification)
    ensures (forall n: Notification :: NotificationKey(n) == NotificationKey(m) ==> SameFourParts(n, m)) <==>
            ColonFree(m)
  {
    if ColonFree(m) {
      forall n: Notification | NotificationKey(n) == NotificationKey(m)
        ensures SameFourParts(n, m)
      {
        KeyOfColonFree(m, n);
      }
    } else {
      var n := KeyConfused(m);
    }
  }

  // ----- the program's own keys -----

  /** Ids, which are uuids, have no colon. */
  ghost predicate IdsHaveNoColon(f: Facts) {
    && (forall s <- f.stock :: NoColon(s.productId))
    && (forall s <- f.longSessions :: NoColon(s.id) && NoColon(s.openedById))
    && (forall id <- f.receivables :: NoColon(id))
    && (forall b <- f.birthdays :: NoColon(b.memberId))
    && (f.emergencyLock.Some? ==> NoColon(f.emergencyLock.value))
    && (forall i <- f.tolerance + f.wasted + f.negative :: NoColon(i.id) && NoColon(i.soldById))
    && (forall s <- f.cashDifferences ::
          NoColon(s.id) && NoColon(s.openedById) && (s.closedById.Some? ==> NoColon(s.closedById.value)))
  }

  lemma {:induction false} CalledColonFree<T>(rows: seq<T>, call: T -> Option<Notification>)
    requires forall row <- rows :: call(row).Some? ==> ColonFree(call(row).value)
    ensures forall n <- Called(rows, call) :: ColonFree(n)
  {
    if rows != [] {
      var init := rows[..|rows| - 1];
      assert rows == init + [rows[|rows| - 1]];
      CalledColonFree(init, call);
    }
  }

  lemma EntityTypesHaveNoColon()
    ensures NoColon("inventory") && NoColon("pos_session") && NoColon("receivable") && NoColon("member") && NoColon("-")
    ensures NoColon("emergency_lock") && NoColon("security") && NoColon("access-link-missing") && NoColon("sale_item")
  {
  }

  lemma ConditionsColonFree(f: Facts)
    requires IdsHaveNoColon(f)
    ensures forall n <- Conditions(f) :: ColonFree(n)
  {
    EntityTypesHaveNoColon();
    CalledColonFree(f.stock, StockCondition);
    CalledColonFree(f.longSessions, SessionCondition);
    CalledColonFree(f.receivables, ReceivableCondition);
    CalledColonFree(f.birthdays, BirthdayCondition);
  }

  lemma EventsColonFree(f: Facts)
    requires IdsHaveNoColon(f)
    ensures forall n <- Events(f) :: ColonFree(n)
  {
    EntityTypesHaveNoColon();
    assert forall i | i in f.tolerance || i in f.wasted || i in f.negative :: i in f.tolerance + f.wasted + f.negative;
    CalledColonFree(f.tolerance, ToleranceEvent);
    CalledColonFree(f.wasted, WasteEvent(WasteThreshold(f)));
    CalledColonFree(f.negative, NegativeEvent);
    CalledColonFree(f.cashDifferences, CloseEvent);
  }

  /** So every alert and event that a sync raises is told apart from all others by its key. */
  lemma SyncKeysAreFaithful(f: Facts, m: Notification, n: Notification)
    requires IdsHaveNoColon(f) && m in Conditions(f) + Events(f)
    ensures NotificationKey(n) == NotificationKey(m) <==> SameFourParts(n, m)
  {
    ConditionsColonFree(f);
    EventsColonFree(f);
    if NotificationKey(n) == NotificationKey(m) { KeyOfColonFree(m, n); }
  }

  // ----- what is wanted -----

  predicate AllFresh(rows: seq<Notification>, dynamic: bool) {
    forall n <- rows :: n.status == Unread && (if dynamic then IsDynamic(n.kind) else IsEvent(n.kind))
  }

  lemma {:induction false} CalledFresh<T>(rows: seq<T>, call: T -> Option<Notification>, dynamic: bool)
    requires forall row: T :: call(row).Some? ==> AllFresh([call(row).value], dynamic)
    ensures AllFresh(Called(rows, call), dynamic)
  {
    if rows != [] {
      CalledFresh(rows[..|rows| - 1], call, dynamic);
      var last := call(rows[|rows| - 1]);
      if last.Some? {
        assert AllFresh([last.value], dynamic) && last.value in [last.value];
      }
    }
  }

  lemma ConditionsAreFresh(f: Facts)
    ensures AllFresh(Conditions(f), true)
  {
    CalledFresh(f.stock, StockCondition, true);
    CalledFresh(f.longSessions, SessionCondition, true);
    CalledFresh(f.receivables, ReceivableCondition, true);
    CalledFresh(f.birthdays, BirthdayCondition, true);
  }

  lemma EventsAreFresh(f: Facts)
    ensures AllFresh(Events(f), false)
  {
    CalledFresh(f.tolerance, ToleranceEvent, false);
    CalledFresh(f.wasted, WasteEvent(WasteThreshold(f)), false);
    CalledFresh(f.negative, NegativeEvent, false);
    CalledFresh(f.cashDifferences, CloseEvent, false);
  }

  // ----- adding what is missing -----

  /** `more` holds, once each, the wanted keys that were not there. */
  ghost predicate Supplies(more: seq<Notification>, keys: set<string>, wanted: seq<Notification>, key: Key) {
    && (forall n <- more :: n in wanted && key(n) !in keys)
    && (forall n <- wanted :: key(n) in keys || key(n) in KeysOf(more, key))
    && (forall i, j | 0 <= i < j < |more| :: key(more[i]) != key(more[j]))
  }

  lemma KeysOfOneMore(rows: seq<Notification>, n: Notification, key: Key)
    ensures KeysOf(rows + [n], key) == KeysOf(rows, key) + {key(n)}
  {
    var all := rows + [n];
    forall m | m in rows
      ensures key(m) in KeysOf(all, key)
    {
      assert m in all;
    }
    assert n in all;
  }

  lemma {:induction false} AddMissingAdds(rows: seq<Notification>, keys: set<string>, wanted: seq<Notification>,
                                          key: Key)
    returns (more: seq<Notification>)
    ensures AddMissing(rows, keys, wanted, key).0 == rows + more
    ensures AddMissing(rows, keys, wanted, key).1 == keys + KeysOf(wanted, key)
    ensures Supplies(more, keys, wanted, key)
  {
    if wanted == [] {
      more := [];
      assert rows + more == rows;
    } else {
      var init, n := wanted[..|wanted| - 1], wanted[|wanted| - 1];
      var before := AddMissingAdds(rows, keys, init, key);
      assert wanted == init + [n];
      KeysOfOneMore(init, n, key);
      KeysOfOneMore(before, n, key);
      if key(n) in keys + KeysOf(init, key) {
        more := before;
        if key(n) !in keys {
          var m :| m in init && key(m) == key(n);
        }
      } else {
        more := before + [n];
        assert forall m <- before :: key(m) in KeysOf(init, key);
        assert rows + before + [n] == rows + more;
      }
    }
  }

  /** Nothing is added when every wanted key is there. */
  lemma {:induction false} NothingMissing(rows: seq<Notification>, keys: set<string>, wanted: seq<Notification>,
                                          key: Key)
    requires forall n <- wanted :: key(n) in keys
    ensures AddMissing(rows, keys, wanted, key) == (rows, keys)
  {
    if wanted != [] { NothingMissing(rows, keys, wanted[..|wanted| - 1], key); }
  }

  // ----- the shape of a reconciliation -----

  /** Notifications with the same key are of the same type. */
  ghost predicate Typed(key: Key) {
    forall m, n :: key(m) == key(n) ==> m.kind == n.kind
  }

  /** What two lists of fresh notifications, conditions and events, add to the rows. */
  lemma ReconcileShape(rows: seq<Notification>, conditions: seq<Notification>, events: seq<Notification>, key: Key)
    returns (raised: seq<Notification>, reported: seq<Notification>)
    requires AllFresh(conditions, true) && AllFresh(events, false)
    ensures
      var kept := ResolveStale(rows + raised, |rows|, KeysOf(conditions, key), key);
      && Reconcile(rows, conditions, events, key) == kept + reported
      && Supplies(raised, OpenKeys(rows, key), conditions, key) && AllFresh(raised, true)
      && Supplies(reported, EventKeys(kept, key), events, key) && AllFresh(reported, false)
  {
    raised := AddMissingAdds(rows, OpenKeys(rows, key), conditions, key);
    var kept := ResolveStale(rows + raised, |rows|, KeysOf(conditions, key), key);
    reported := AddMissingAdds(kept, EventKeys(kept, key), events, key);
  }

  function OpenDynamicKeys(rows: seq<Notification>, key: Key): set<string> {
    set n | n in rows && IsOpen(n.status) && IsDynamic(n.kind) :: key(n)
  }

  // ----- convergence -----

  lemma OpenDynamicIsActive(rows: seq<Notification>, conditions: seq<Notification>, events: seq<Notification>, key: Key,
                            n: Notification)
    requires AllFresh(conditions, true) && AllFresh(events, false)
    requires n in Reconcile(rows, conditions, events, key) && IsOpen(n.status) && IsDynamic(n.kind)
    ensures key(n) in KeysOf(conditions, key)
  {
    var raised, reported := ReconcileShape(rows, conditions, events, key);
    var all := rows + raised;
    var kept := ResolveStale(all, |rows|, KeysOf(conditions, key), key);
    assert n !in reported;
    var i :| 0 <= i < |kept| && kept[i] == n;
    if i >= |rows| { assert all[i] == raised[i - |rows|] && all[i] in raised; }
  }

  /** An open dynamic row with an active key outlives the sync. */
  lemma ActiveRowStays(all: seq<Notification>, start: nat, active: set<string>, reported: seq<Notification>, key: Key,
                       i: nat)
    requires i < |all| && start <= |all| && IsOpen(all[i].status) && IsDynamic(all[i].kind) && key(all[i]) in active
    ensures key(all[i]) in OpenDynamicKeys(ResolveStale(all, start, active, key) + reported, key)
  {
    var kept := ResolveStale(all, start, active, key);
    assert kept[i] == all[i] && all[i] in kept;
    assert all[i] in kept + reported;
  }

  lemma ActiveIsOpenDynamic(rows: seq<Notification>, conditions: seq<Notification>, events: seq<Notification>, key: Key,
                            c: Notification)
    requires AllFresh(conditions, true) && AllFresh(events, false) && Typed(key)
    requires c in conditions
    ensures key(c) in OpenDynamicKeys(Reconcile(rows, conditions, events, key), key)
  {
    var raised, reported := ReconcileShape(rows, conditions, events, key);
    var all, active := rows + raised, KeysOf(conditions, key);
    assert key(c) in active;
    var n, i;
    if key(c) in OpenKeys(rows, key) {
      n :| n in rows && IsOpen(n.status) && key(n) == key(c);
      i :| 0 <= i < |rows| && rows[i] == n;
    } else {
      assert key(c) in KeysOf(raised, key);
      n :| n in raised && key(n) == key(c);
      var j :| 0 <= j < |raised| && raised[j] == n;
      i := |rows| + j;
    }
    assert all[i] == n && key(n) in active;
    ActiveRowStays(all, |rows|, active, reported, key, i);
  }

  lemma ReconcileConverges(rows: seq<Notification>, conditions: seq<Notification>, events: seq<Notification>, key: Key)
    requires AllFresh(conditions, true) && AllFresh(events, false) && Typed(key)
    ensures OpenDynamicKeys(Reconcile(rows, conditions, events, key), key) == KeysOf(conditions, key)
  {
    var after := Reconcile(rows, conditions, events, key);
    forall n | n in after && IsOpen(n.status) && IsDynamic(n.kind)
      ensures key(n) in KeysOf(conditions, key)
    {
      OpenDynamicIsActive(rows, conditions, events, key, n);
    }
    forall c | c in conditions
      ensures key(c) in OpenDynamicKeys(after, key)
    {
      ActiveIsOpenDynamic(rows, conditions, events, key, c);
    }
  }

  lemma EventsAreReported(rows: seq<Notification>, conditions: seq<Notification>, events: seq<Notification>, key: Key,
                          e: Notification)
    requires AllFresh(conditions, true) && AllFresh(events, false) && e in events
    ensures key(e) in EventKeys(Reconcile(rows, conditions, events, key), key)
  {
    var raised, reported := ReconcileShape(rows, conditions, events, key);
    var kept := ResolveStale(rows + raised, |rows|, KeysOf(conditions, key), key);
    var n;
    if key(e) in EventKeys(kept, key) {
      n :| n in kept && IsEvent(n.kind) && key(n) == key(e);
    } else {
      n :| n in reported && key(n) == key(e);
    }
    assert n in kept + reported;
  }

  lemma ReconcileSettles(rows: seq<Notification>, conditions: seq<Notification>, events: seq<Notification>, key: Key)
    requires AllFresh(conditions, true) && AllFresh(events, false) && Typed(key)
    ensures
      var after := Reconcile(rows, conditions, events, key);
      Reconcile(after, conditions, events, key) == after
  {
    var after, active := Reconcile(rows, conditions, events, key), KeysOf(conditions, key);
    ReconcileConverges(rows, conditions, events, key);
    forall c <- conditions
      ensures key(c) in OpenKeys(after, key)
    {
      assert key(c) in OpenDynamicKeys(after, key);
    }
    NothingMissing(after, OpenKeys(after, key), conditions, key);
    forall i | 0 <= i < |after|
      ensures !IsStale(after[i], active, key)
    {
      if IsOpen(after[i].status) && IsDynamic(after[i].kind) { assert key(after[i]) in OpenDynamicKeys(after, key); }
    }
    assert ResolveStale(after, |after|, active, key) == after;
    forall e <- events
      ensures key(e) in EventKeys(after, key)
    {
      EventsAreReported(rows, conditions, events, key, e);
    }
    NothingMissing(after, EventKeys(after, key), events, key);
  }

  // ----- keys held once -----

  /** No two of the notifications that `p` picks have the same key. */
  ghost predicate Once(rows: seq<Notification>, p: Notification -> bool, key: Key) {
    forall i, j | 0 <= i < j < |rows| && p(rows[i]) && p(rows[j]) :: key(rows[i]) != key(rows[j])
  }

  function EventRow(): Notification -> bool {
    (n: Notification) => IsEvent(n.kind)
  }

  function OpenDynamicRow(): Notification -> bool {
    (n: Notification) => IsOpen(n.status) && IsDynamic(n.kind)
  }

  /** Rows whose keys stay and that are picked no more than before. */
  lemma OnceCarriesOver(rows: seq<Notification>, rows': seq<Notification>, p: Notification -> bool, key: Key)
    requires Once(rows, p, key) && |rows'| == |rows|
    requires forall i | 0 <= i < |rows| :: key(rows'[i]) == key(rows[i]) && (p(rows'[i]) ==> p(rows[i]))
    ensures Once(rows', p, key)
  {
  }

  /** New rows with new keys, once each. */
  lemma OnceWithMore(rows: seq<Notification>, more: seq<Notification>, p: Notification -> bool, key: Key)
    requires Once(rows, p, key)
    requires forall n <- more :: p(n) ==> forall m <- rows :: p(m) ==> key(m) != key(n)
    requires forall i, j | 0 <= i < j < |more| :: key(more[i]) != key(more[j])
    ensures Once(rows + more, p, key)
  {
    var all := rows + more;
    forall i, j | 0 <= i < j < |all| && p(all[i]) && p(all[j])
      ensures key(all[i]) != key(all[j])
    {
      if i < |rows| <= j {
        assert rows[i] in rows && more[j - |rows|] in more;
      } else if |rows| <= i {
        assert all[i] == more[i - |rows|] && all[j] == more[j - |rows|];
      }
    }
  }

  /** The key does not look at the status. */
  ghost predicate IgnoresStatus(key: Key) {
    forall n, status :: key(n) == key(n.(status := status))
  }

  lemma ReconcileKeepsEventsOnce(rows: seq<Notification>, conditions: seq<Notification>, events: seq<Notification>,
                                 key: Key)
    requires AllFresh(conditions, true) && AllFresh(events, false) && IgnoresStatus(key)
    requires Once(rows, EventRow(), key)
    ensures Once(Reconcile(rows, conditions, events, key), EventRow(), key)
  {
    var raised, reported := ReconcileShape(rows, conditions, events, key);
    var kept := ResolveStale(rows + raised, |rows|, KeysOf(conditions, key), key);
    OnceWithMore(rows, raised, EventRow(), key);
    OnceCarriesOver(rows + raised, kept, EventRow(), key);
    forall n <- reported
      ensures forall m <- kept :: EventRow()(m) ==> key(m) != key(n)
    {
      assert forall m <- kept :: EventRow()(m) ==> key(m) in EventKeys(kept, key);
    }
    OnceWithMore(kept, reported, EventRow(), key);
  }

  lemma ReconcileKeepsOpenOnce(rows: seq<Notification>, conditions: seq<Notification>, events: seq<Notification>,
                               key: Key)
    requires AllFresh(conditions, true) && AllFresh(events, false) && IgnoresStatus(key)
    requires Once(rows, OpenDynamicRow(), key)
    ensures Once(Reconcile(rows, conditions, events, key), OpenDynamicRow(), key)
  {
    var raised, reported := ReconcileShape(rows, conditions, events, key);
    var kept := ResolveStale(rows + raised, |rows|, KeysOf(conditions, key), key);
    forall n <- raised
      ensures forall m <- rows :: OpenDynamicRow()(m) ==> key(m) != key(n)
    {
      assert forall m <- rows :: OpenDynamicRow()(m) ==> key(m) in OpenKeys(rows, key);
    }
    OnceWithMore(rows, raised, OpenDynamicRow(), key);
    OnceCarriesOver(rows + raised, kept, OpenDynamicRow(), key);
    OnceWithMore(kept, reported, OpenDynamicRow(), key);
  }

  // ----- the results -----

  lemma SyncIsReconcile(f: Facts)
    ensures AllFresh(Conditions(f), true) && AllFresh(Events(f), false)
    ensures Typed(NotificationKey) && IgnoresStatus(NotificationKey)
  {
    ConditionsAreFresh(f);
    EventsAreFresh(f);
    forall m, n | NotificationKey(m) == NotificationKey(n)
      ensures m.kind == n.kind
    {
      KeyGivesType(m, n);
    }
  }

  /** After a sync the keys of the open dynamic notifications are exactly those of the conditions that hold. */
  lemma SyncConverges(rows: seq<Notification>, f: Facts)
    ensures OpenDynamicKeys(Sync(rows, f), NotificationKey) == KeysOf(Conditions(f), NotificationKey)
  {
    SyncIsReconcile(f);
    ReconcileConverges(rows, Conditions(f), Events(f), NotificationKey);
  }

  /** A second sync on the same facts creates nothing and resolves nothing. */
  lemma SyncIsIdempotent(rows: seq<Notification>, f: Facts)
    ensures Sync(Sync(rows, f), f) == Sync(rows, f)
  {
    SyncIsReconcile(f);
    ReconcileSettles(rows, Conditions(f), Events(f), NotificationKey);
  }

  /** A sync changes no row that was there, except that it resolves the open dynamic ones that no condition supports. */
  lemma SyncTouchesOnlyStale(rows: seq<Notification>, f: Facts, i: nat)
    requires i < |rows|
    ensures i < |Sync(rows, f)|
    ensures Sync(rows, f)[i]
         == if IsStale(rows[i], KeysOf(Conditions(f), NotificationKey), NotificationKey)
            then rows[i].(status := Resolved) else rows[i]
  {
    SyncIsReconcile(f);
    var raised, reported := ReconcileShape(rows, Conditions(f), Events(f), NotificationKey);
  }

  /** Actions of users change statuses only. */
  lemma ActionsChangeStatuses(rows: seq<Notification>, action: Action, i: nat)
    requires !action.Syncing? && i < |rows|
    ensures |Perform(rows, action)| == |rows|
    ensures Perform(rows, action)[i] == rows[i].(status := Perform(rows, action)[i].status)
    ensures !action.Reviewing? && IsOpen(Perform(rows, action)[i].status) ==> IsOpen(rows[i].status)
  {
  }

  /**
   Over any run of syncs and user actions, no event is reported twice, even once its notification is resolved or
   archived.
   */
  lemma {:induction false} EventsReportedOnce(actions: seq<Action>)
    ensures Once(Run([], actions), EventRow(), NotificationKey)
  {
    if actions != [] {
      var rows, action := Run([], actions[..|actions| - 1]), actions[|actions| - 1];
      EventsReportedOnce(actions[..|actions| - 1]);
      if action.Syncing? {
        SyncIsReconcile(action.facts);
        ReconcileKeepsEventsOnce(rows, Conditions(action.facts), Events(action.facts), NotificationKey);
      } else {
        ActionsKeepEventsOnce(rows, action);
      }
    }
  }

  lemma ActionsKeepEventsOnce(rows: seq<Notification>, action: Action)
    requires Once(rows, EventRow(), NotificationKey) && !action.Syncing?
    ensures Once(Perform(rows, action), EventRow(), NotificationKey)
  {
    var rows' := Perform(rows, action);
    forall i | 0 <= i < |rows|
      ensures |rows'| == |rows| && rows'[i] == rows[i].(status := rows'[i].status)
    {
      ActionsChangeStatuses(rows, action, i);
    }
    OnceCarriesOver(rows, rows', EventRow(), NotificationKey);
  }

  /** Syncs, reading, resolving and archiving keep at most one open notification a condition. */
  lemma {:induction false} OtherActionsKeepOpenOnce(rows: seq<Notification>, action: Action)
    requires Once(rows, OpenDynamicRow(), NotificationKey) && !action.Reviewing?
    ensures Once(Perform(rows, action), OpenDynamicRow(), NotificationKey)
  {
    if action.Syncing? {
      SyncIsReconcile(action.facts);
      ReconcileKeepsOpenOnce(rows, Conditions(action.facts), Events(action.facts), NotificationKey);
    } else {
      var rows' := Perform(rows, action);
      forall i | 0 <= i < |rows|
        ensures |rows'| == |rows| && rows'[i] == rows[i].(status := rows'[i].status)
        ensures IsOpen(rows'[i].status) ==> IsOpen(rows[i].status)
      {
        ActionsChangeStatuses(rows, action, i);
      }
      OnceCarriesOver(rows, rows', OpenDynamicRow(), NotificationKey);
    }
  }

  /** No other open dynamic notification has the key of row `i`. */
  ghost predicate AloneOpen(rows: seq<Notification>, i: nat, key: Key)
    requires i < |rows|
  {
    forall j | 0 <= j < |rows| && j != i && IsOpen(rows[j].status) && IsDynamic(rows[j].kind) ::
      key(rows[j]) != key(rows[i])
  }

  /**
   Marking a notification in review opens it whatever it was, even resolved. It keeps one open notification a condition
   exactly when the notification is not dynamic or no other open one has its key.
   */
  lemma ReviewKeepsOpenOnceExactlyWhen(rows: seq<Notification>, i: nat)
    requires Once(rows, OpenDynamicRow(), NotificationKey) && i < |rows|
    ensures Once(Perform(rows, Reviewing(i)), OpenDynamicRow(), NotificationKey) <==>
            !IsDynamic(rows[i].kind) || AloneOpen(rows, i, NotificationKey)
  {
    assert IgnoresStatus(NotificationKey);
    ReviewedOnce(rows, i, NotificationKey);
  }

  lemma ReviewedOnce(rows: seq<Notification>, i: nat, key: Key)
    requires Once(rows, OpenDynamicRow(), key) && i < |rows| && IgnoresStatus(key)
    ensures Once(SetStatus(rows, i, InReview), OpenDynamicRow(), key) <==>
            !IsDynamic(rows[i].kind) || AloneOpen(rows, i, key)
  {
    var rows' := SetStatus(rows, i, InReview);
    if Once(rows', OpenDynamicRow(), key) && IsDynamic(rows[i].kind) {
      forall j | 0 <= j < |rows| && j != i && IsOpen(rows[j].status) && IsDynamic(rows[j].kind)
        ensures key(rows[j]) != key(rows[i])
      {
        assert OpenDynamicRow()(rows'[i]) && OpenDynamicRow()(rows'[j]);
        assert key(rows'[i]) == key(rows[i]);
      }
    }
    if IsDynamic(rows[i].kind) && AloneOpen(rows, i, key) {
      forall a, b | 0 <= a < b < |rows'| && OpenDynamicRow()(rows'[a]) && OpenDynamicRow()(rows'[b])
        ensures key(rows'[a]) != key(rows'[b])
      {
        assert key(rows'[i]) == key(rows[i]);
        if a != i { assert OpenDynamicRow()(rows[a]); }
        if b != i { assert OpenDynamicRow()(rows[b]); }
      }
    }
  }

  /** One open notification a condition after the first `n` actions. */
  ghost predicate OnceAfter(actions: seq<Action>, n: nat)
    requires n <= |actions|
  {
    Once(Run([], actions[..n]), OpenDynamicRow(), NotificationKey)
  }

  /** If action `n` reviews a dynamic notification, it finds no other open one with its key. */
  ghost predicate ReviewsAlone(actions: seq<Action>, n: nat)
    requires n < |actions|
  {
    var rows := Run([], actions[..n]);
    actions[n].Reviewing? && actions[n].index < |rows| && IsDynamic(rows[actions[n].index].kind) ==>
      AloneOpen(rows, actions[n].index, NotificationKey)
  }

  lemma OneMoreActionDecides(actions: seq<Action>, n: nat)
    requires n < |actions| && OnceAfter(actions, n)
    ensures OnceAfter(actions, n + 1) <==> ReviewsAlone(actions, n)
  {
    var rows, action := Run([], actions[..n]), actions[n];
    assert actions[..n + 1][..n] == actions[..n];
    if !action.Reviewing? {
      OtherActionsKeepOpenOnce(rows, action);
    } else if action.index < |rows| {
      ReviewKeepsOpenOnceExactlyWhen(rows, action.index);
    }
  }

  lemma {:induction false} StaysOpenOnce(actions: seq<Action>, n: nat)
    requires n <= |actions| && forall i | 0 <= i < n :: ReviewsAlone(actions, i)
    ensures OnceAfter(actions, n)
  {
    if n > 0 {
      StaysOpenOnce(actions, n - 1);
      OneMoreActionDecides(actions, n - 1);
    }
  }

  /**
   From no notifications on, a condition has at most one open notification at every moment of a run exactly when every
   review of a dynamic notification finds no other open one with its key.
   */
  lemma OpenOnceExactlyWhen(actions: seq<Action>)
    ensures (forall n | 0 <= n <= |actions| :: OnceAfter(actions, n)) <==>
            (forall n | 0 <= n < |actions| :: ReviewsAlone(actions, n))
  {
    if forall n | 0 <= n < |actions| :: ReviewsAlone(actions, n) {
      forall n | 0 <= n <= |actions|
        ensures OnceAfter(actions, n)
      {
        StaysOpenOnce(actions, n);
      }
    }
    if forall n | 0 <= n <= |actions| :: OnceAfter(actions, n) {
      forall n | 0 <= n < |actions|
        ensures ReviewsAlone(actions, n)
      {
        assert OnceAfter(actions, n) && OnceAfter(actions, n + 1);
        OneMoreActionDecides(actions, n);
      }
    }
  }

  /** So over any run without a review a condition has at most one open notification. */
  lemma OpenOnceWithoutReviews(actions: seq<Action>)
    requires forall action <- actions :: !action.Reviewing?
    ensures Once(Run([], actions), OpenDynamicRow(), NotificationKey)
  {
    forall n | 0 <= n < |actions|
      ensures ReviewsAlone(actions, n)
    {
      assert actions[n] in actions;
    }
    StaysOpenOnce(actions, |actions|);
    assert actions[..|actions|] == actions;
  }

  // ----- a review that opens a second one -----

  const NOTHING := Facts([], [], [], [], None, false, false, 0, 0, [], [], [], [])

  function SoldOut(product: string): Facts {
    NOTHING.(stock := [StockFact(product, 0, 0)])
  }

  /** A product sells out, comes in again and sells out once more, and then its first alert is reviewed. */
  function SoldOutTwice(product: string): seq<Action> {
    [Syncing(SoldOut(product)), Syncing(NOTHING), Syncing(SoldOut(product)), Reviewing(0)]
  }

  function OutAlert(product: string, status: Status): Notification {
    Notification(InventoryOut, None, Some("inventory"), Some(product), status)
  }

  lemma FactsOfSoldOut(product: string)
    ensures Conditions(NOTHING) == [] && Events(NOTHING) == [] && Events(SoldOut(product)) == []
    ensures Conditions(SoldOut(product)) == [OutAlert(product, Unread)]
  {
    var rows := [StockFact(product, 0, 0)];
    assert rows[..0] == [];
    assert Called(rows, StockCondition) == [OutAlert(product, Unread)];
  }

  lemma AddOne(rows: seq<Notification>, keys: set<string>, n: Notification, key: Key)
    ensures AddMissing(rows, keys, [n], key).0 == if key(n) in keys then rows else rows + [n]
    ensures AddMissing(rows, keys, [], key).0 == rows
  {
    assert [n][..0] == [];
  }

  lemma ReconcileOne(rows: seq<Notification>, n: Notification, key: Key)
    ensures Reconcile(rows, [n], [], key)
            == ResolveStale(if key(n) in OpenKeys(rows, key) then rows else rows + [n], |rows|, {key(n)}, key)
    ensures Reconcile(rows, [], [], key) == ResolveStale(rows, |rows|, {}, key)
  {
    AddOne(rows, OpenKeys(rows, key), n, key);
    assert KeysOf([n], key) == {key(n)} by { assert n in [n]; }
    assert KeysOf([], key) == {};
  }

  lemma SoldOutRows(first: Notification, key: Key)
    requires first.status == Unread && IsDynamic(first.kind) && IgnoresStatus(key)
    ensures Reconcile([], [first], [], key) == [first]
    ensures Reconcile([first], [], [], key) == [first.(status := Resolved)]
    ensures Reconcile([first.(status := Resolved)], [first], [], key) == [first.(status := Resolved), first]
  {
    var resolved := first.(status := Resolved);
    ReconcileOne([], first, key);
    ReconcileOne([first], first, key);
    ReconcileOne([resolved], first, key);
    assert OpenKeys([], key) == {} && OpenKeys([resolved], key) == {};
  }

  lemma RunBeforeReview(product: string)
    ensures Run([], SoldOutTwice(product)[..3]) == [OutAlert(product, Resolved), OutAlert(product, Unread)]
  {
    var actions, first := SoldOutTwice(product), OutAlert(product, Unread);
    FactsOfSoldOut(product);
    SoldOutRows(first, NotificationKey);
    assert actions[..1][..0] == [] && actions[..2][..1] == actions[..1] && actions[..3][..2] == actions[..2];
    assert Run([], actions[..1]) == [first];
    assert Run([], actions[..2]) == [first.(status := Resolved)];
    assert Run([], actions[..3]) == [first.(status := Resolved), first];
  }

  lemma TwoOpenAreNotOnce(first: Notification, second: Notification, key: Key)
    requires key(first) == key(second) && OpenDynamicRow()(first) && OpenDynamicRow()(second)
    ensures !Once([first, second], OpenDynamicRow(), key)
  {
    var rows := [first, second];
    assert rows[0] == first && rows[1] == second;
  }

  /** Then two alerts for the one condition are open. */
  lemma ReviewOpensASecond(product: string)
    ensures Run([], SoldOutTwice(product)) == [OutAlert(product, InReview), OutAlert(product, Unread)]
    ensures !Once(Run([], SoldOutTwice(product)), OpenDynamicRow(), NotificationKey)
  {
    var actions := SoldOutTwice(product);
    RunBeforeReview(product);
    assert Run([], actions) == Perform(Run([], actions[..3]), Reviewing(0));
    TwoOpenAreNotOnce(OutAlert(product, InReview), OutAlert(product, Unread), NotificationKey);
  }
}
