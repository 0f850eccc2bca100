/** The sync as it runs: loops over the facts that keep the open keys, the active keys and the known events. */
module NotificationService {
  import opened Prelude
  import opened Notifications
  import opened NotificationTheorems

  lemma CalledOneMore<T>(facts: seq<T>, i: nat, call: T -> Option<Notification>)
    requires i < |facts|
    ensures Called(facts[..i + 1], call) == Called(facts[..i], call) + Optional(call(facts[i]))
  {
    assert facts[..i + 1][..i] == facts[..i];
  }

  class NotificationTable {
    var rows: seq<Notification>
    /** Working sets of a sync: keys of open notifications, keys raised so far, keys of known events. */
    var openMap: set<string>
    var activeDynamicKeys: set<string>
    var existingEventKeys: set<string>

    constructor ()
      ensures rows == []
    {
      rows, openMap, activeDynamicKeys, existingEventKeys := [], {}, {}, {};
    }

    method Sync(f: Facts)
      modifies this
      ensures rows == Notifications.Sync(old(rows), f)
    {
      ghost var start, keys := rows, OpenKeys(rows, NotificationKey);
      var openCount := |rows|;
      openMap := OpenKeys(rows, NotificationKey);
      activeDynamicKeys := {};
      RaiseAll(f.stock, StockCondition, start, keys, []);
      assert [] + Called(f.stock, StockCondition) == Called(f.stock, StockCondition);
      RaiseAll(f.longSessions, SessionCondition, start, keys, Called(f.stock, StockCondition));
      RaiseAll(f.receivables, ReceivableCondition, start, keys,
               Called(f.stock, StockCondition) + Called(f.longSessions, SessionCondition));
      RaiseAll(f.birthdays, BirthdayCondition, start, keys,
               Called(f.stock, StockCondition) + Called(f.longSessions, SessionCondition)
               + Called(f.receivables, ReceivableCondition));
      ghost var raised := Called(f.stock, StockCondition) + Called(f.longSessions, SessionCondition)
      + Called(f.receivables, ReceivableCondition) + Called(f.birthdays, BirthdayCondition);
      var emergency, access := EmergencyCondition(f), AccessCondition(f);
      if emergency.Some? { Raise(emergency.value, start, keys, raised); }
      assert raised + Optional(emergency) == if emergency.Some? then raised + [emergency.value] else raised;
      if access.Some? { Raise(access.value, start, keys, raised + Optional(emergency)); }
      assert Conditions(f) == raised + Optional(emergency) + Optional(access);
      assert raised + Optional(emergency) + [] == raised + Optional(emergency);

      ResolveInactive(openCount);

      existingEventKeys := EventKeys(rows, NotificationKey);
      ghost var kept, known := rows, existingEventKeys;
      ReportAll(f.tolerance, ToleranceEvent, kept, known, []);
      assert [] + Called(f.tolerance, ToleranceEvent) == Called(f.tolerance, ToleranceEvent);
      ReportAll(f.wasted, WasteEvent(WasteThreshold(f)), kept, known, Called(f.tolerance, ToleranceEvent));
      ReportAll(f.negative, NegativeEvent, kept, known,
                Called(f.tolerance, ToleranceEvent) + Called(f.wasted, WasteEvent(WasteThreshold(f))));
      ReportAll(f.cashDifferences, CloseEvent, kept, known,
                Called(f.tolerance, ToleranceEvent) + Called(f.wasted, WasteEvent(WasteThreshold(f)))
                + Called(f.negative, NegativeEvent));
    }

    /** `start` and `keys` with the conditions `done` raised. */
    ghost predicate RaisedSoFar(start: seq<Notification>, keys: set<string>, done: seq<Notification>)
      reads this
    {
      && (rows, openMap) == AddMissing(start, keys, done, NotificationKey)
      && activeDynamicKeys == KeysOf(done, NotificationKey)
    }

    method Raise(n: Notification, ghost start: seq<Notification>, ghost keys: set<string>,
                 ghost done: seq<Notification>)
      requires RaisedSoFar(start, keys, done)
      modifies this`rows, this`openMap, this`activeDynamicKeys
      ensures RaisedSoFar(start, keys, done + [n])
    {
      var key := NotificationKey(n);
      activeDynamicKeys := activeDynamicKeys + {key};
      if key !in openMap {
        rows := rows + [n];
        openMap := openMap + {key};
      }
      assert (done + [n])[..|done|] == done;
      KeysOfOneMore(done, n, NotificationKey);
    }

    /** One loop over the rows of a table that call for an alert. */
    method RaiseAll<T>(facts: seq<T>, call: T -> Option<Notification>, ghost start: seq<Notification>,
                       ghost keys: set<string>, ghost done: seq<Notification>)
      requires RaisedSoFar(start, keys, done)
      modifies this`rows, this`openMap, this`activeDynamicKeys
      ensures RaisedSoFar(start, keys, done + Called(facts, call))
    {
      ghost var raised := done;
      for i := 0 to |facts|
        invariant raised == done + Called(facts[..i], call) && RaisedSoFar(start, keys, raised)
      {
        CalledOneMore(facts, i, call);
        var condition := call(facts[i]);
        if condition.Some? {
          Raise(condition.value, start, keys, raised);
          raised := raised + [condition.value];
        }
      }
      assert facts[..|facts|] == facts;
    }

    /** Resolves, among the notifications that were open when the sync began, those without a condition. */
    method ResolveInactive(openCount: nat)
      modifies this`rows
      ensures rows == ResolveStale(old(rows), openCount, activeDynamicKeys, NotificationKey)
    {
      var found := rows;
      for i := 0 to |found|
        invariant |rows| == |found|
        invariant forall j | 0 <= j < |found| ::
            rows[j] == if j < i && j < openCount && IsStale(found[j], activeDynamicKeys, NotificationKey)
                       then found[j].(status := Resolved) else found[j]
      {
        if i < openCount && IsStale(found[i], activeDynamicKeys, NotificationKey) {
          rows := rows[i := found[i].(status := Resolved)];
        }
      }
    }

    ghost predicate ReportedSoFar(kept: seq<Notification>, known: set<string>, done: seq<Notification>)
      reads this
    {
      (rows, existingEventKeys) == AddMissing(kept, known, done, NotificationKey)
    }

    method Report(n: Notification, ghost kept: seq<Notification>, ghost known: set<string>,
                  ghost done: seq<Notification>)
      requires ReportedSoFar(kept, known, done)
      modifies this`rows, this`existingEventKeys
      ensures ReportedSoFar(kept, known, done + [n])
    {
      var key := NotificationKey(n);
      assert (done + [n])[..|done|] == done;
      if key !in existingEventKeys {
        rows := rows + [n];
        existingEventKeys := existingEventKeys + {key};
      }
    }

    /** One loop over the rows of a table that are events to report. */
    method ReportAll<T>(facts: seq<T>, call: T -> Option<Notification>, ghost kept: seq<Notification>,
                        ghost known: set<string>, ghost done: seq<Notification>)
      requires ReportedSoFar(kept, known, done)
      modifies this`rows, this`existingEventKeys
      ensures ReportedSoFar(kept, known, done + Called(facts, call))
    {
      ghost var reported := done;
      for i := 0 to |facts|
        invariant reported == done + Called(facts[..i], call) && ReportedSoFar(kept, known, reported)
      {
        CalledOneMore(facts, i, call);
        var event := call(facts[i]);
        if event.Some? {
          Report(event.value, kept, known, reported);
          reported := reported + [event.value];
        }
      }
      assert facts[..|facts|] == facts;
    }

    // ----- user actions; a notification the user cannot see is not found -----

    method MarkRead(i: nat) returns (found: bool)
      modifies this`rows
      ensures found <==> i < |old(rows)|
      ensures rows == Perform(old(rows), Reading(i))
    {
      if i >= |rows| { return false; }
      if rows[i].status == Unread { rows := rows[i := rows[i].(status := Read)]; }
      return true;
    }

    /** One update of all rows the user can see that are unread; the count comes back. */
    method MarkAllRead(visible: Notification -> bool) returns (updated: nat)
      modifies this`rows
      ensures rows == Perform(old(rows), ReadingAll(visible))
      ensures updated == |set i | 0 <= i < |old(rows)| && visible(old(rows)[i]) && old(rows)[i].status == Unread|
    {
      var found := rows;
      updated := 0;
      ghost var changed: set<int> := {};
      for i := 0 to |found|
        invariant |rows| == |found| && updated == |changed|
        invariant changed == set j | 0 <= j < i && visible(found[j]) && found[j].status == Unread
        invariant forall j | 0 <= j < |found| ::
            rows[j] == if j < i && visible(found[j]) && found[j].status == Unread then found[j].(status := Read)
                       else found[j]
      {
        if visible(found[i]) && found[i].status == Unread {
          rows := rows[i := found[i].(status := Read)];
          updated := updated + 1;
          changed := changed + {i};
        }
      }
    }

    method MarkInReview(i: nat) returns (found: bool)
      modifies this`rows
      ensures found <==> i < |old(rows)|
      ensures rows == Perform(old(rows), Reviewing(i))
    {
      if i >= |rows| { return false; }
      rows := rows[i := rows[i].(status := InReview)];
      return true;
    }

    method Resolve(i: nat) returns (found: bool)
      modifies this`rows
      ensures found <==> i < |old(rows)|
      ensures rows == Perform(old(rows), Resolving(i))
    {
      if i >= |rows| { return false; }
      rows := rows[i := rows[i].(status := Resolved)];
      return true;
    }

    method Archive(i: nat) returns (found: bool)
      modifies this`rows
      ensures found <==> i < |old(rows)|
      ensures rows == Perform(old(rows), Archiving(i))
    {
      if i >= |rows| { return false; }
      rows := rows[i := rows[i].(status := Archived)];
      return true;
    }
  }
}
