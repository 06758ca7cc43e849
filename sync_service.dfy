/** The sync service: online/offline state, a list of sync listeners, the offline
    sync of stored responses, and the hand-off of a response to its destinations.
    The asynchronous steps run one after another. */
module SyncService {
  import opened Wrappers
  import opened FormTypes
  import opened FormResponses
  import Table

  datatype EventKind = Start | Complete | ErrorEvent

  /** The data passed with an event. */
  datatype Payload =
    | NoPayload
    | SyncedCount(synced: nat)
    | SyncFailure
    | ForResponse(response: FormResponse)
    | DestinationFailure(response: FormResponse, destination: Destination)

  datatype SyncEvent = SyncEvent(kind: EventKind, payload: Payload)

  /** A registered callback. Callbacks are compared by identity (`!==`), which the id
      stands for; `throws` says whether calling it raises. */
  datatype Listener = Listener(id: nat, throws: bool)

  /** One call of a listener with an event, and whether that call raised. */
  datatype Delivery = Delivery(listenerId: nat, event: SyncEvent, raised: bool)

  /** What `notifyListeners` does for one event: every listener is called, in order. */
  function DeliveriesOf(listeners: seq<Listener>, e: SyncEvent): (ds: seq<Delivery>)
    ensures |ds| == |listeners|
    ensures forall i :: 0 <= i < |listeners| ==> ds[i] == Delivery(listeners[i].id, e, listeners[i].throws)
  {
    seq(|listeners|, i requires 0 <= i < |listeners| => Delivery(listeners[i].id, e, listeners[i].throws))
  }

  /** The deliveries of several events, event by event. */
  function DeliveriesOfAll(listeners: seq<Listener>, es: seq<SyncEvent>): seq<Delivery>
    decreases |es|
  {
    if es == [] then [] else DeliveriesOfAll(listeners, es[..|es| - 1]) + DeliveriesOf(listeners, es[|es| - 1])
  }

  lemma DeliveriesOfAllSnoc(listeners: seq<Listener>, es: seq<SyncEvent>, e: SyncEvent)
    ensures DeliveriesOfAll(listeners, es + [e]) == DeliveriesOfAll(listeners, es) + DeliveriesOf(listeners, e)
  {
    assert (es + [e])[..|es|] == es;
  }

  lemma {:induction false} DeliveriesOfAllAppend(listeners: seq<Listener>, a: seq<SyncEvent>, b: seq<SyncEvent>)
    ensures DeliveriesOfAll(listeners, a + b) == DeliveriesOfAll(listeners, a) + DeliveriesOfAll(listeners, b)
    decreases |b|
  {
    if b == [] {
      assert a + b == a;
    } else {
      var b', last := b[..|b| - 1], b[|b| - 1];
      var da, db', dl := DeliveriesOfAll(listeners, a), DeliveriesOfAll(listeners, b'), DeliveriesOf(listeners, last);
      DeliveriesOfAllAppend(listeners, a, b');
      var ab := a + b;
      assert ab[..|ab| - 1] == a + b' && ab[|ab| - 1] == last;
      assert DeliveriesOfAll(listeners, ab) == (da + db') + dl;
      assert DeliveriesOfAll(listeners, b) == db' + dl;
      assert (da + db') + dl == da + (db' + dl);
    }
  }

  /** A raising listener does not stop the ones after it: every listener gets every
      event, and nothing else is delivered. */
  lemma {:induction false} EveryListenerCalled(listeners: seq<Listener>, es: seq<SyncEvent>)
    ensures |DeliveriesOfAll(listeners, es)| == |es| * |listeners|
    ensures forall k, i :: 0 <= k < |es| && 0 <= i < |listeners| ==>
              Delivery(listeners[i].id, es[k], listeners[i].throws) in DeliveriesOfAll(listeners, es)
    ensures forall d :: d in DeliveriesOfAll(listeners, es) ==> d.event in es
    decreases |es|
  {
    if es != [] {
      var front := es[..|es| - 1];
      var e := es[|es| - 1];
      EveryListenerCalled(listeners, front);
      assert |es| * |listeners| == |front| * |listeners| + |listeners|;
      forall k, i | 0 <= k < |es| && 0 <= i < |listeners|
        ensures Delivery(listeners[i].id, es[k], listeners[i].throws) in DeliveriesOfAll(listeners, es)
      {
        if k < |es| - 1 {
          assert es[k] == front[k];
        } else {
          assert DeliveriesOf(listeners, e)[i] == Delivery(listeners[i].id, es[k], listeners[i].throws);
        }
      }
      forall d | d in DeliveriesOfAll(listeners, es) ensures d.event in es {
        if d in DeliveriesOfAll(listeners, front) {
          assert d.event in front;
        } else {
          assert d in DeliveriesOf(listeners, e);
        }
      }
    }
  }

  /** `syncListeners.filter(l => l !== listener)` */
  function WithoutListener(listeners: seq<Listener>, id: nat): (r: seq<Listener>)
    ensures forall l :: l in r <==> l in listeners && l.id != id
    ensures |r| <= |listeners|
    decreases |listeners|
  {
    if listeners == [] then []
    else
      var front := WithoutListener(listeners[..|listeners| - 1], id);
      var last := listeners[|listeners| - 1];
      assert forall l :: l in listeners <==> l in listeners[..|listeners| - 1] || l == last;
      if last.id == id then front else front + [last]
  }

  /** Removal distributes over concatenation, so the remaining listeners keep their order. */
  lemma {:induction false} WithoutListenerAppend(a: seq<Listener>, b: seq<Listener>, id: nat)
    ensures WithoutListener(a + b, id) == WithoutListener(a, id) + WithoutListener(b, id)
    decreases |b|
  {
    if b == [] {
      assert a + b == a;
    } else {
      var b' := b[..|b| - 1];
      assert (a + b)[..|a + b| - 1] == a + b';
      WithoutListenerAppend(a, b', id);
    }
  }

  /** Removing a listener that is not registered changes nothing. */
  lemma {:induction false} WithoutAbsentListener(listeners: seq<Listener>, id: nat)
    requires forall i :: 0 <= i < |listeners| ==> listeners[i].id != id
    ensures WithoutListener(listeners, id) == listeners
    decreases |listeners|
  {
    if listeners != [] {
      WithoutAbsentListener(listeners[..|listeners| - 1], id);
    }
  }

  /** Adding a new listener and removing it again restores the list. */
  lemma AddThenRemove(listeners: seq<Listener>, l: Listener)
    requires forall i :: 0 <= i < |listeners| ==> listeners[i].id != l.id
    ensures WithoutListener(listeners + [l], l.id) == listeners
  {
    WithoutListenerAppend(listeners, [l], l.id);
    WithoutAbsentListener(listeners, l.id);
    assert [l][..0] == [];
  }

  /** `markResponseAsSynced` applied to a row. */
  function Synced(r: FormResponse, now: int): (s: FormResponse)
    ensures !IsUnsynced(s)
    ensures s.id == r.id && s.data == r.data && s.status == r.status && s.syncedAt == Some(now)
  {
    r.(offlineCreated := false, syncedAt := Some(now), updatedAt := now)
  }

  /** The table with the rows whose keys are in `marked` synced at `now`. */
  function MarkedRows(rows: map<nat, FormResponse>, marked: set<nat>, now: int): (r: map<nat, FormResponse>)
    ensures r.Keys == rows.Keys
    ensures forall k :: k in rows ==> r[k] == if k in marked then Synced(rows[k], now) else rows[k]
  {
    map k | k in rows :: if k in marked then Synced(rows[k], now) else rows[k]
  }

  /** The events `processDestinations` emits: none without destinations; otherwise a
      start, an error for each enabled destination of a known type whose hand-off fails
      (in array order), and a complete. `fails(d)` stands for the outcome of the
      hand-off; disabled destinations are skipped and unknown types only warn. */
  function DestinationEvents(response: FormResponse, destinations: Option<seq<Destination>>, fails: Destination -> bool): seq<SyncEvent> {
    if destinations.None? || destinations.value == [] then []
    else [SyncEvent(Start, ForResponse(response))] + FailureEvents(response, destinations.value, fails) + [SyncEvent(Complete, ForResponse(response))]
  }

  predicate HandOffFails(d: Destination, fails: Destination -> bool) {
    d.enabled && !d.destinationType.UnknownSink? && fails(d)
  }

  function FailureEvents(response: FormResponse, ds: seq<Destination>, fails: Destination -> bool): (es: seq<SyncEvent>)
    ensures |es| <= |ds|
    ensures forall i :: 0 <= i < |es| ==> es[i].kind == ErrorEvent
    decreases |ds|
  {
    if ds == [] then []
    else
      FailureEvents(response, ds[..|ds| - 1], fails) +
      (if HandOffFails(ds[|ds| - 1], fails) then [SyncEvent(ErrorEvent, DestinationFailure(response, ds[|ds| - 1]))] else [])
  }

  /** Each error event names a failing, enabled destination of the list, and each
      failing destination is reported; a failure does not stop the others. */
  lemma {:induction false} FailureEventsExact(response: FormResponse, ds: seq<Destination>, fails: Destination -> bool, d: Destination)
    ensures SyncEvent(ErrorEvent, DestinationFailure(response, d)) in FailureEvents(response, ds, fails) <==>
              d in ds && HandOffFails(d, fails)
    decreases |ds|
  {
    if ds != [] {
      var front := ds[..|ds| - 1];
      FailureEventsExact(response, front, fails, d);
      assert d in ds <==> d in front || d == ds[|ds| - 1];
    }
  }

  /** One more destination adds its error event, if its hand-off fails. */
  lemma FailureEventsStep(response: FormResponse, ds: seq<Destination>, i: nat, fails: Destination -> bool)
    requires i < |ds|
    ensures HandOffFails(ds[i], fails) ==>
              FailureEvents(response, ds[..i + 1], fails) ==
              FailureEvents(response, ds[..i], fails) + [SyncEvent(ErrorEvent, DestinationFailure(response, ds[i]))]
    ensures !HandOffFails(ds[i], fails) ==> FailureEvents(response, ds[..i + 1], fails) == FailureEvents(response, ds[..i], fails)
  {
    assert ds[..i + 1][..i] == ds[..i];
  }

  /** The shape of the events: nothing without destinations; otherwise a start first, a
      complete last, and only errors in between, never one for a disabled destination. */
  lemma DestinationEventsShape(response: FormResponse, destinations: Option<seq<Destination>>, fails: Destination -> bool)
    ensures destinations.None? || destinations.value == [] ==> DestinationEvents(response, destinations, fails) == []
    ensures destinations.Some? && destinations.value != [] ==>
              var es := DestinationEvents(response, destinations, fails);
              && 2 <= |es| <= |destinations.value| + 2
              && es[0] == SyncEvent(Start, ForResponse(response))
              && es[|es| - 1] == SyncEvent(Complete, ForResponse(response))
              && forall i :: 0 < i < |es| - 1 ==> es[i].kind == ErrorEvent
    ensures forall d: Destination :: !d.enabled ==>
              SyncEvent(ErrorEvent, DestinationFailure(response, d)) !in DestinationEvents(response, destinations, fails)
  {
    if destinations.Some? && destinations.value != [] {
      forall d: Destination | !d.enabled
        ensures SyncEvent(ErrorEvent, DestinationFailure(response, d)) !in DestinationEvents(response, destinations, fails)
      {
        FailureEventsExact(response, destinations.value, fails, d);
      }
    }
  }

  class SyncService {
    var isOnline: bool
    var isSyncing: bool
    var listeners: seq<Listener>
    /** Every event notified so far, in order. */
    var events: seq<SyncEvent>
    /** Every listener call made so far, in order. */
    var deliveries: seq<Delivery>

    /** `online` is `navigator.onLine` when the service is created. */
    constructor (online: bool)
      ensures isOnline == online && !isSyncing && listeners == [] && events == [] && deliveries == []
    {
      isOnline := online;
      isSyncing := false;
      listeners := [];
      events := [];
      deliveries := [];
    }

    /** `addSyncListener` */
    method AddSyncListener(l: Listener)
      modifies this
      ensures listeners == old(listeners) + [l]
      ensures isOnline == old(isOnline) && isSyncing == old(isSyncing) && events == old(events) && deliveries == old(deliveries)
    {
      listeners := listeners + [l];
    }

    /** `removeSyncListener` */
    method RemoveSyncListener(id: nat)
      modifies this
      ensures listeners == WithoutListener(old(listeners), id)
      ensures isOnline == old(isOnline) && isSyncing == old(isSyncing) && events == old(events) && deliveries == old(deliveries)
    {
      listeners := WithoutListener(listeners, id);
    }

    /** `destroy`: the window handlers are detached (not modelled) and the list emptied. */
    method Destroy()
      modifies this
      ensures listeners == []
      ensures isOnline == old(isOnline) && isSyncing == old(isSyncing) && events == old(events) && deliveries == old(deliveries)
    {
      listeners := [];
    }

    /** `notifyListeners`: calls every listener in order; a listener that raises is
        logged and the loop goes on. */
    method NotifyListeners(e: SyncEvent)
      modifies this
      ensures events == old(events) + [e]
      ensures deliveries == old(deliveries) + DeliveriesOf(listeners, e)
      ensures listeners == old(listeners) && isOnline == old(isOnline) && isSyncing == old(isSyncing)
    {
      var i := 0;
      while i < |listeners|
        invariant 0 <= i <= |listeners|
        invariant deliveries == old(deliveries) + DeliveriesOf(listeners[..i], e)
        invariant listeners == old(listeners) && events == old(events)
        invariant isOnline == old(isOnline) && isSyncing == old(isSyncing)
      {
        var listener := listeners[i];
        deliveries := deliveries + [Delivery(listener.id, e, listener.throws)];
        i := i + 1;
        assert DeliveriesOf(listeners[..i], e) == DeliveriesOf(listeners[..i - 1], e) + [Delivery(listener.id, e, listener.throws)];
      }
      assert listeners[..i] == listeners;
      events := events + [e];
    }

    /** `handleOffline` */
    method HandleOffline()
      modifies this
      ensures !isOnline
      ensures isSyncing == old(isSyncing) && listeners == old(listeners) && events == old(events) && deliveries == old(deliveries)
    {
      isOnline := false;
    }

    /** `sync`. It does nothing when offline or already syncing; otherwise see RunSync. */
    method Sync(store: ResponseStore, now: int, failAt: Option<nat>)
      requires store.Valid()
      modifies this, store
      ensures store.Valid() && store.nextId == old(store.nextId)
      ensures listeners == old(listeners) && isOnline == old(isOnline)
      ensures !old(isOnline) || old(isSyncing) ==>
                isSyncing == old(isSyncing) && events == old(events) && deliveries == old(deliveries) && store.rows == old(store.rows)
      ensures old(isOnline) && !old(isSyncing) ==> SyncRan(old(events), old(deliveries), old(store.rows), now, failAt, store.rows)
    {
      if !isOnline || isSyncing {
        return;
      }
      RunSync(store, now, failAt);
    }

    /** What a sync that runs leaves behind: not syncing; a start and then a complete or
        an error appended to the events and delivered to every listener; some unsynced
        rows marked synced and nothing else changed. The complete comes exactly when no
        marking raised; it then carries the number of unsynced rows, all of which are
        marked. */
    ghost predicate SyncRan(events0: seq<SyncEvent>, deliveries0: seq<Delivery>, rows0: map<nat, FormResponse>,
                            now: int, failAt: Option<nat>, rows: map<nat, FormResponse>)
      reads this
    {
      && !isSyncing
      && |events| == |events0| + 2
      && events[..|events0|] == events0
      && events[|events0|] == SyncEvent(Start, NoPayload)
      && deliveries == deliveries0 + DeliveriesOfAll(listeners, events[|events0|..])
      && (events[|events| - 1].kind == Complete <==> failAt.None? || failAt.value >= |UnsyncedKeys(rows0)|)
      && (events[|events| - 1].kind == Complete ==>
            events[|events| - 1] == SyncEvent(Complete, SyncedCount(|UnsyncedKeys(rows0)|)) &&
            rows == MarkedRows(rows0, UnsyncedKeys(rows0), now))
      && (events[|events| - 1].kind != Complete ==> events[|events| - 1] == SyncEvent(ErrorEvent, SyncFailure))
      && (exists marked: set<nat> :: marked <= UnsyncedKeys(rows0) && rows == MarkedRows(rows0, marked, now))
    }

    /** The body of a `sync` that passes its guard. */
    method RunSync(store: ResponseStore, now: int, failAt: Option<nat>)
      requires store.Valid() && isOnline && !isSyncing
      modifies this, store
      ensures store.Valid() && store.nextId == old(store.nextId)
      ensures listeners == old(listeners) && isOnline == old(isOnline)
      ensures SyncRan(old(events), old(deliveries), old(store.rows), now, failAt, store.rows)
    {
      ghost var events0 := events;
      ghost var deliveries0 := deliveries;
      ghost var rows0 := store.rows;
      isSyncing := true;
      var start := SyncEvent(Start, NoPayload);
      NotifyListeners(start);
      var unsyncedResponses := store.GetUnsyncedResponses();
      UnsyncedKeysCount(rows0, store.nextId, unsyncedResponses);
      var last: SyncEvent;
      ghost var marked: set<nat>;
      if |unsyncedResponses| == 0 {
        isSyncing := false;
        last := SyncEvent(Complete, SyncedCount(0));
        NotifyListeners(last);
        marked := {};
        assert store.rows == MarkedRows(rows0, marked, now);
      } else {
        var syncedCount, failed := MarkUnsynced(store, unsyncedResponses, now, failAt);
        marked := IdsOf(unsyncedResponses, syncedCount);
        last := if failed then SyncEvent(ErrorEvent, SyncFailure) else SyncEvent(Complete, SyncedCount(syncedCount));
        NotifyListeners(last);
      }
      TwoEventsDelivered(events0, deliveries0, start, last, listeners, events, deliveries);
      isSyncing := false;
    }

    /** The marking loop of `sync`: each unsynced response with an id, in order, is
        marked synced, until the one at position `failAt` raises. */
    method MarkUnsynced(store: ResponseStore, unsynced: seq<FormResponse>, now: int, failAt: Option<nat>)
      returns (syncedCount: nat, failed: bool)
      requires store.Valid()
      requires forall i :: 0 <= i < |unsynced| ==> unsynced[i].id.Some? && unsynced[i].id.value in store.rows
      requires forall i, j :: 0 <= i < j < |unsynced| ==> unsynced[i].id.value < unsynced[j].id.value
      modifies store
      ensures store.Valid() && store.nextId == old(store.nextId)
      ensures failed <==> failAt.Some? && failAt.value < |unsynced|
      ensures syncedCount == if failed then failAt.value else |unsynced|
      ensures store.rows == MarkedRows(old(store.rows), IdsOf(unsynced, syncedCount), now)
    {
      ghost var rows0 := store.rows;
      syncedCount := 0;
      failed := false;
      assert IdsOf(unsynced, 0) == {};
      MarkedRowsNone(rows0, now);
      while syncedCount < |unsynced|
        invariant 0 <= syncedCount <= |unsynced|
        invariant store.Valid() && store.nextId == old(store.nextId)
        invariant store.rows == MarkedRows(rows0, IdsOf(unsynced, syncedCount), now)
        invariant failAt.Some? ==> failAt.value >= syncedCount
      {
        if failAt == Some(syncedCount) {
          failed := true;
          return;
        }
        MarkNext(store, unsynced, syncedCount, rows0, now);
        syncedCount := syncedCount + 1;
      }
    }

    /** One step of the marking loop: the next response is marked synced. */
    method MarkNext(store: ResponseStore, unsynced: seq<FormResponse>, m: nat, ghost rows0: map<nat, FormResponse>, now: int)
      requires store.Valid() && m < |unsynced|
      requires forall i :: 0 <= i < |unsynced| ==> unsynced[i].id.Some? && unsynced[i].id.value in rows0
      requires forall i, j :: 0 <= i < j < |unsynced| ==> unsynced[i].id.value < unsynced[j].id.value
      requires store.rows == MarkedRows(rows0, IdsOf(unsynced, m), now)
      modifies store
      ensures store.Valid() && store.nextId == old(store.nextId)
      ensures store.rows == MarkedRows(rows0, IdsOf(unsynced, m + 1), now)
    {
      var id := unsynced[m].id.value;
      IdsOfStep(unsynced, m);
      MarkedRowsStep(rows0, IdsOf(unsynced, m), id, now);
      var _ := store.MarkResponseAsSynced(id, now);
    }

    /** `handleOnline`: back online, then a sync attempt. */
    method HandleOnline(store: ResponseStore, now: int, failAt: Option<nat>)
      requires store.Valid()
      modifies this, store
      ensures isOnline && listeners == old(listeners) && store.Valid()
      ensures !old(isSyncing) ==> SyncRan(old(events), old(deliveries), old(store.rows), now, failAt, store.rows)
      ensures old(isSyncing) ==> isSyncing && events == old(events) && deliveries == old(deliveries) && store.rows == old(store.rows)
    {
      isOnline := true;
      Sync(store, now, failAt);
    }

    /** The loop of `processDestinations`: one error event per failing destination. */
    method NotifyFailures(response: FormResponse, ds: seq<Destination>, fails: Destination -> bool)
      modifies this
      ensures events == old(events) + FailureEvents(response, ds, fails)
      ensures deliveries == old(deliveries) + DeliveriesOfAll(listeners, FailureEvents(response, ds, fails))
      ensures listeners == old(listeners) && isOnline == old(isOnline) && isSyncing == old(isSyncing)
    {
      ghost var events0, deliveries0 := events, deliveries;
      var i := 0;
      while i < |ds|
        invariant 0 <= i <= |ds|
        invariant events == events0 + FailureEvents(response, ds[..i], fails)
        invariant deliveries == deliveries0 + DeliveriesOfAll(listeners, FailureEvents(response, ds[..i], fails))
        invariant listeners == old(listeners) && isOnline == old(isOnline) && isSyncing == old(isSyncing)
      {
        FailureEventsStep(response, ds, i, fails);
        ghost var done := FailureEvents(response, ds[..i], fails);
        if HandOffFails(ds[i], fails) {
          var e := SyncEvent(ErrorEvent, DestinationFailure(response, ds[i]));
          ghost var e1, d1 := events, deliveries;
          NotifyListeners(e);
          OneMoreDelivered(listeners, done, e, events0, deliveries0, e1, d1, events, deliveries);
        }
        i := i + 1;
      }
      assert ds[..i] == ds;
    }

    /** `processDestinations`, with the outcome of each hand-off given by `fails`. */
    method ProcessDestinations(response: FormResponse, destinations: Option<seq<Destination>>, fails: Destination -> bool)
      modifies this
      ensures events == old(events) + DestinationEvents(response, destinations, fails)
      ensures deliveries == old(deliveries) + DeliveriesOfAll(listeners, DestinationEvents(response, destinations, fails))
      ensures listeners == old(listeners) && isOnline == old(isOnline) && isSyncing == old(isSyncing)
    {
      if destinations.None? || |destinations.value| == 0 {
        return;
      }
      var start := SyncEvent(Start, ForResponse(response));
      var complete := SyncEvent(Complete, ForResponse(response));
      ghost var failures := FailureEvents(response, destinations.value, fails);
      ghost var e0, d0 := events, deliveries;
      NotifyListeners(start);
      ghost var e1, d1 := events, deliveries;
      NotifyFailures(response, destinations.value, fails);
      ghost var e2, d2 := events, deliveries;
      NotifyListeners(complete);
      BracketedDeliveries(listeners, start, failures, complete, e0, d0, e1, d1, e2, d2, events, deliveries);
    }
  }

  /** Notifying one more event extends the run notified so far by it. */
  lemma OneMoreDelivered(listeners: seq<Listener>, done: seq<SyncEvent>, e: SyncEvent,
                         e0: seq<SyncEvent>, d0: seq<Delivery>, e1: seq<SyncEvent>, d1: seq<Delivery>,
                         e2: seq<SyncEvent>, d2: seq<Delivery>)
    requires e1 == e0 + done && d1 == d0 + DeliveriesOfAll(listeners, done)
    requires e2 == e1 + [e] && d2 == d1 + DeliveriesOf(listeners, e)
    ensures e2 == e0 + (done + [e])
    ensures d2 == d0 + DeliveriesOfAll(listeners, done + [e])
  {
    DeliveriesOfAllSnoc(listeners, done, e);
    var dd, de := DeliveriesOfAll(listeners, done), DeliveriesOf(listeners, e);
    assert (d0 + dd) + de == d0 + (dd + de);
  }

  /** A start event, a run of events and a complete event, notified one after the
      other, add up to the bracketed run and its deliveries. */
  lemma BracketedDeliveries(listeners: seq<Listener>, start: SyncEvent, middle: seq<SyncEvent>, complete: SyncEvent,
                            e0: seq<SyncEvent>, d0: seq<Delivery>, e1: seq<SyncEvent>, d1: seq<Delivery>,
                            e2: seq<SyncEvent>, d2: seq<Delivery>, e3: seq<SyncEvent>, d3: seq<Delivery>)
    requires e1 == e0 + [start] && d1 == d0 + DeliveriesOf(listeners, start)
    requires e2 == e1 + middle && d2 == d1 + DeliveriesOfAll(listeners, middle)
    requires e3 == e2 + [complete] && d3 == d2 + DeliveriesOf(listeners, complete)
    ensures e3 == e0 + ([start] + middle + [complete])
    ensures d3 == d0 + DeliveriesOfAll(listeners, [start] + middle + [complete])
  {
    var ds, dm, dc := DeliveriesOf(listeners, start), DeliveriesOfAll(listeners, middle), DeliveriesOf(listeners, complete);
    var front := [start] + middle;
    DeliveriesOfAllSnoc(listeners, [], start);
    assert [] + [start] == [start];
    DeliveriesOfAllAppend(listeners, [start], middle);
    assert DeliveriesOfAll(listeners, front) == ds + dm;
    DeliveriesOfAllSnoc(listeners, front, complete);
    assert DeliveriesOfAll(listeners, front + [complete]) == (ds + dm) + dc;
    assert d3 == ((d0 + ds) + dm) + dc;
    assert ((d0 + ds) + dm) + dc == d0 + ((ds + dm) + dc);
  }

  lemma MarkedRowsNone(rows: map<nat, FormResponse>, now: int)
    ensures MarkedRows(rows, {}, now) == rows
  {
  }

  /** Marking one more row is one update of the rows marked so far. */
  lemma MarkedRowsStep(rows: map<nat, FormResponse>, marked: set<nat>, id: nat, now: int)
    requires id in rows && id !in marked
    ensures MarkedRows(rows, marked + {id}, now) ==
              MarkedRows(rows, marked, now)[id := MarkedRows(rows, marked, now)[id].(offlineCreated := false, syncedAt := Some(now), updatedAt := now)]
  {
  }

  /** The ids of the first `m` responses. */
  function IdsOf(rs: seq<FormResponse>, m: nat): set<nat>
    requires m <= |rs| && forall i :: 0 <= i < |rs| ==> rs[i].id.Some?
  {
    set j | 0 <= j < m :: rs[j].id.value
  }

  lemma IdsOfStep(rs: seq<FormResponse>, m: nat)
    requires m < |rs| && forall i :: 0 <= i < |rs| ==> rs[i].id.Some?
    requires forall i, j :: 0 <= i < j < |rs| ==> rs[i].id.value < rs[j].id.value
    ensures IdsOf(rs, m + 1) == IdsOf(rs, m) + {rs[m].id.value}
    ensures rs[m].id.value !in IdsOf(rs, m)
  {
    assert IdsOf(rs, m + 1) == IdsOf(rs, m) + {rs[m].id.value};
  }

  /** Two notifications leave the two events in order and their deliveries. */
  lemma TwoEventsDelivered(events0: seq<SyncEvent>, deliveries0: seq<Delivery>, first: SyncEvent, second: SyncEvent,
                           listeners: seq<Listener>, events: seq<SyncEvent>, deliveries: seq<Delivery>)
    requires events == events0 + [first] + [second]
    requires deliveries == deliveries0 + DeliveriesOf(listeners, first) + DeliveriesOf(listeners, second)
    ensures |events| == |events0| + 2 && events[..|events0|] == events0 && events[|events0|] == first
    ensures events[|events| - 1] == second
    ensures deliveries == deliveries0 + DeliveriesOfAll(listeners, events[|events0|..])
  {
    DeliveriesOfAllSnoc(listeners, [], first);
    DeliveriesOfAllSnoc(listeners, [first], second);
    assert events[|events0|..] == [first] + [second];
  }

  /** Once every unsynced row is marked, none is left for the next sync. */
  lemma MarkingAllLeavesNoneUnsynced(rows: map<nat, FormResponse>, now: int)
    ensures forall k :: k in MarkedRows(rows, UnsyncedKeys(rows), now) ==> !IsUnsynced(MarkedRows(rows, UnsyncedKeys(rows), now)[k])
    ensures UnsyncedKeys(MarkedRows(rows, UnsyncedKeys(rows), now)) == {}
  {
  }

  /** The keys of the rows `getUnsyncedResponses` returns. */
  function UnsyncedKeys(rows: map<nat, FormResponse>): set<nat> {
    set k | k in rows && IsUnsynced(rows[k])
  }

  /** The unsynced scan returns one row per unsynced key. */
  lemma UnsyncedKeysCount(rows: map<nat, FormResponse>, n: nat, result: seq<FormResponse>)
    requires forall k :: k in rows ==> k < n && rows[k].id == Some(k)
    requires forall r :: r in result <==> r in rows.Values && IsUnsynced(r)
    requires forall i :: 0 <= i < |result| ==> result[i].id.Some? && result[i].id.value in rows
    requires forall i, j :: 0 <= i < j < |result| ==> result[i].id.value < result[j].id.value
    ensures |result| == |UnsyncedKeys(rows)|
    ensures (set j | 0 <= j < |result| :: result[j].id.value) == UnsyncedKeys(rows)
  {
    var ids := set j | 0 <= j < |result| :: result[j].id.value;
    forall k | k in UnsyncedKeys(rows) ensures k in ids {
      assert rows[k] in rows.Values;
      var j :| 0 <= j < |result| && result[j] == rows[k];
    }
    forall k | k in ids ensures k in UnsyncedKeys(rows) {
      var j :| 0 <= j < |result| && result[j].id.value == k;
      assert result[j] in result;
      var k' :| k' in rows && rows[k'] == result[j];
    }
    var ks := seq(|result|, j requires 0 <= j < |result| => result[j].id.value);
    Table.DistinctSeqCard(ks);
    assert ids == set j | 0 <= j < |ks| :: ks[j] by {
      forall x | x in ids ensures x in set j | 0 <= j < |ks| :: ks[j] {
        var j :| 0 <= j < |result| && result[j].id.value == x;
        assert ks[j] == x;
      }
    }
    assert ids == UnsyncedKeys(rows);
  }
}
