/**
 The diagnostic records processing one order writes: a status that cannot be
 read, how each alert POST ended, and the exception that ends the walk. The
 replies of the alert API are numbered by the alerts already posted.
 */
module ProcessingLog {
  import opened OrdersModel
  import opened Delivery
  import opened Processing

  /** The record the alert call writes for the reply it received. */
  function AlertLog(reply: Reply, description: Option<string>): LogRecord {
    match reply
    case Succeeded => AlertSent(description)
    case Rejected => AlertNotSent(description)
    case Faulted => AlertFailed
  }

  /** The records the alert call writes: how the POST ended for an item that
      is an object, an error record for one that is not. */
  function AlertCall(item: Item, reply: Reply): seq<LogRecord> {
    if item.Entry? then [AlertLog(reply, item.description)] else [AlertFailed]
  }

  /** The records one iteration writes, its alert being answered by
      `reply(sent)`: the delivered check's, then the alert call's. */
  function ItemLog(item: Item, orderId: Option<string>, reply: nat -> Reply, sent: nat): seq<LogRecord> {
    StatusLog(item) + (if Posts(item, orderId) then AlertCall(item, reply(sent)) else [])
  }

  /** The number of the next alert POST once the walk `w` has posted its
      alerts, the walk's first alert being number `sent`. */
  function AlertNumber(sent: nat, w: Walk): nat {
    sent + |w.alerts|
  }

  /** The records written during the walk over `items`, the first alert being
      answered by `reply(sent)`: those of each item the walk reaches, in order,
      each alert numbered after the alerts posted before it. Items after the
      one that throws write nothing. */
  function WalkLog(items: seq<Item>, orderId: Option<string>, reply: nat -> Reply, sent: nat): seq<LogRecord> {
    if |items| == 0 then []
    else
      var init := items[..|items| - 1];
      var w := WalkItems(init, orderId);
      WalkLog(init, orderId, reply, sent) +
      (if w.failed then [] else ItemLog(items[|items| - 1], orderId, reply, AlertNumber(sent, w)))
  }

  /** The records processing the order writes: those of the walk, followed by
      one error record when processing throws. */
  function OrderLog(order: Order, reply: nat -> Reply, sent: nat): seq<LogRecord> {
    if order.items.None? then [ProcessFailed]
    else
      var items := order.items.value;
      WalkLog(items, order.id, reply, sent) + (if Fails(order) then [ProcessFailed] else [])
  }

  /** The records the alert call writes (as opposed to those of the delivered
      check and of processing). */
  predicate IsAlertRecord(r: LogRecord) {
    r.AlertSent? || r.AlertNotSent? || r.AlertFailed?
  }

  /** The alert records of a log, in order. */
  function AlertRecords(log: seq<LogRecord>): seq<LogRecord> {
    if |log| == 0 then []
    else
      var init, last := log[..|log| - 1], log[|log| - 1];
      AlertRecords(init) + (if IsAlertRecord(last) then [last] else [])
  }

  /** The record for each of `alerts`, numbered from `sent`. */
  function AlertReplies(alerts: seq<Alert>, reply: nat -> Reply, sent: nat): seq<LogRecord> {
    seq(|alerts|, i requires 0 <= i < |alerts| => AlertLog(reply(sent + i), alerts[i].description))
  }

  // ---------------------------------------------------------------------------
  // Lemmas

  lemma {:induction false} AlertRecordsAppend(a: seq<LogRecord>, b: seq<LogRecord>)
    ensures AlertRecords(a + b) == AlertRecords(a) + AlertRecords(b)
  {
    if |b| == 0 {
      assert a + b == a;
    } else {
      var b' := b[..|b| - 1];
      assert (a + b)[..|a + b| - 1] == a + b';
      assert (a + b)[|a + b| - 1] == b[|b| - 1];
      AlertRecordsAppend(a, b');
    }
  }

  /** The replies to two runs of alerts, the second numbered after the first. */
  lemma AlertRepliesAppend(a: seq<Alert>, b: seq<Alert>, reply: nat -> Reply, sent: nat, n: nat)
    requires n == sent + |a|
    ensures AlertReplies(a + b, reply, sent) == AlertReplies(a, reply, sent) + AlertReplies(b, reply, n)
  {
    var l, r := AlertReplies(a + b, reply, sent), AlertReplies(a, reply, sent) + AlertReplies(b, reply, n);
    forall i | 0 <= i < |l| ensures l[i] == r[i] {
      if i >= |a| {
        assert (a + b)[i] == b[i - |a|];
      }
    }
  }

  /** The only alert record of an iteration is that of its alert call. */
  lemma ItemLogAlertRecords(item: Item, orderId: Option<string>, reply: nat -> Reply, sent: nat)
    ensures AlertRecords(ItemLog(item, orderId, reply, sent)) ==
      if Posts(item, orderId) then [AlertLog(reply(sent), item.description)] else []
  {
    var tail := if Posts(item, orderId) then [AlertLog(reply(sent), item.description)] else [];
    AlertRecordsAppend(StatusLog(item), tail);
    assert AlertRecords([StatusUnreadable]) == AlertRecords([]) + [];
    assert AlertRecords(tail) == AlertRecords([]) + tail;
  }

  /** Once the walk has thrown, the items after it write nothing. */
  lemma {:induction false} WalkLogAfterThrow(p: seq<Item>, q: seq<Item>, orderId: Option<string>, reply: nat -> Reply, sent: nat)
    requires WalkItems(p, orderId).failed
    ensures WalkLog(p + q, orderId, reply, sent) == WalkLog(p, orderId, reply, sent)
  {
    if |q| == 0 {
      assert p + q == p;
    } else {
      var q' := q[..|q| - 1];
      assert (p + q)[..|p + q| - 1] == p + q';
      WalkLogAfterThrow(p, q', orderId, reply, sent);
      FailedWalkIsFinal(p, q', orderId);
    }
  }

  /** Once an item throws, the items after it write nothing. */
  lemma WalkLogAfterFault(p: seq<Item>, q: seq<Item>, orderId: Option<string>, reply: nat -> Reply, sent: nat)
    requires exists k :: 0 <= k < |p| && Faulty(p[k], orderId)
    ensures WalkLog(p + q, orderId, reply, sent) == WalkLog(p, orderId, reply, sent)
  {
    WalkFailsIff(p, orderId);
    WalkLogAfterThrow(p, q, orderId, reply, sent);
  }

  /** The walk alone never writes the processing error record. */
  lemma {:induction false} WalkLogHasNoProcessFailed(items: seq<Item>, orderId: Option<string>, reply: nat -> Reply, sent: nat)
    ensures ProcessFailed !in WalkLog(items, orderId, reply, sent)
  {
    if |items| != 0 {
      WalkLogHasNoProcessFailed(items[..|items| - 1], orderId, reply, sent);
    }
  }

  /** Processing writes the error record exactly when it throws, and then
      once, as the last record it writes. */
  lemma OrderLogFailure(order: Order, reply: nat -> Reply, sent: nat)
    ensures var log := OrderLog(order, reply, sent);
      (ProcessFailed in log <==> Fails(order)) &&
      (Fails(order) ==> log[|log| - 1] == ProcessFailed && multiset(log)[ProcessFailed] == 1)
  {
    if order.items.Some? {
      var walkLog := WalkLog(order.items.value, order.id, reply, sent);
      WalkLogHasNoProcessFailed(order.items.value, order.id, reply, sent);
      assert multiset(walkLog)[ProcessFailed] == 0;
    }
  }

  /** The alert records of the walk are exactly one per alert posted, in
      order, each matching the reply to that POST. */
  lemma {:induction false} WalkLogAlertRecords(items: seq<Item>, orderId: Option<string>, reply: nat -> Reply, sent: nat)
    ensures AlertRecords(WalkLog(items, orderId, reply, sent)) ==
      AlertReplies(WalkItems(items, orderId).alerts, reply, sent)
  {
    if |items| != 0 {
      WalkLogAlertRecords(items[..|items| - 1], orderId, reply, sent);
      WalkLogAlertRecordsLast(items, orderId, reply, sent);
    }
  }

  /** The inductive step of WalkLogAlertRecords: the last item keeps the
      correspondence between alert records and alerts posted. */
  lemma WalkLogAlertRecordsLast(items: seq<Item>, orderId: Option<string>, reply: nat -> Reply, sent: nat)
    requires |items| != 0
    requires AlertRecords(WalkLog(items[..|items| - 1], orderId, reply, sent)) ==
      AlertReplies(WalkItems(items[..|items| - 1], orderId).alerts, reply, sent)
    ensures AlertRecords(WalkLog(items, orderId, reply, sent)) ==
      AlertReplies(WalkItems(items, orderId).alerts, reply, sent)
  {
    var init, x := items[..|items| - 1], items[|items| - 1];
    var w, walkLog := WalkItems(init, orderId), WalkLog(init, orderId, reply, sent);
    if w.failed {
      assert WalkItems(items, orderId) == w;
      assert WalkLog(items, orderId, reply, sent) == walkLog + [];
      assert walkLog + [] == walkLog;
    } else {
      assert WalkItems(items, orderId) == Visit(w, x, orderId);
      assert WalkLog(items, orderId, reply, sent) == walkLog + ItemLog(x, orderId, reply, AlertNumber(sent, w));
      VisitAlertRecords(walkLog, w, x, orderId, reply, sent);
    }
  }

  /** One iteration that does not start after a throw keeps the alert records
      matching the alerts posted: its own alert, numbered after the walk's,
      gets its own record. */
  lemma VisitAlertRecords(walkLog: seq<LogRecord>, w: Walk, x: Item, orderId: Option<string>, reply: nat -> Reply, sent: nat)
    requires !w.failed && AlertRecords(walkLog) == AlertReplies(w.alerts, reply, sent)
    ensures AlertRecords(walkLog + ItemLog(x, orderId, reply, AlertNumber(sent, w))) ==
      AlertReplies(Visit(w, x, orderId).alerts, reply, sent)
  {
    var n := AlertNumber(sent, w);
    AlertRecordsAppend(walkLog, ItemLog(x, orderId, reply, n));
    ItemLogAlertRecords(x, orderId, reply, n);
    VisitStep(w, x, orderId);
    AlertRepliesAppend(w.alerts, IterationAlerts(x, orderId), reply, sent, n);
    assert AlertReplies(IterationAlerts(x, orderId), reply, n) ==
      if Posts(x, orderId) then [AlertLog(reply(n), x.description)] else [];
  }

  /** The alert records processing the order writes are one per alert it
      posts, in order, each matching the reply to that POST. */
  lemma OrderLogAlertRecords(order: Order, reply: nat -> Reply, sent: nat)
    ensures AlertRecords(OrderLog(order, reply, sent)) == AlertReplies(OrderAlerts(order), reply, sent)
  {
    var log := OrderLog(order, reply, sent);
    if order.items.None? {
      assert AlertRecords(log) == AlertRecords([]) + [];
    } else {
      var walkLog := WalkLog(order.items.value, order.id, reply, sent);
      WalkLogAlertRecords(order.items.value, order.id, reply, sent);
      var tail := if Fails(order) then [ProcessFailed] else [];
      AlertRecordsAppend(walkLog, tail);
      assert AlertRecords([ProcessFailed]) == AlertRecords([]) + [];
    }
  }

  // ---------------------------------------------------------------------------
  // Steps of the processing loop

  /** The records of the walk over a prefix one item longer, while the walk has
      not thrown: its alert is numbered after the alerts posted so far. */
  lemma WalkLogStep(items: seq<Item>, i: nat, orderId: Option<string>, reply: nat -> Reply, sent: nat)
    requires i < |items| && !WalkItems(items[..i], orderId).failed
    ensures WalkLog(items[..i + 1], orderId, reply, sent) ==
      WalkLog(items[..i], orderId, reply, sent) + ItemLog(items[i], orderId, reply, AlertNumber(sent, WalkItems(items[..i], orderId)))
  {
    assert items[..i + 1][..i] == items[..i];
  }

  /** One pass of the loop over the items, seen from the walk so far and the
      records it wrote: the pass throws exactly at a faulty item, appends its
      alert, appends the visited item when it does not throw, and appends its
      records with its alert numbered after those posted so far. */
  lemma WalkLoopStep(items: seq<Item>, i: nat, orderId: Option<string>, reply: nat -> Reply, sent: nat,
                     w: Walk, walkLog: seq<LogRecord>)
    requires i < |items| && w == WalkItems(items[..i], orderId) && !w.failed
    requires walkLog == WalkLog(items[..i], orderId, reply, sent)
    ensures WalkItems(items[..i + 1], orderId).failed == Faulty(items[i], orderId)
    ensures WalkItems(items[..i + 1], orderId).alerts == w.alerts + IterationAlerts(items[i], orderId)
    ensures !Faulty(items[i], orderId) ==> WalkItems(items[..i + 1], orderId).items == w.items + [Visited(items[i])]
    ensures WalkLog(items[..i + 1], orderId, reply, sent) == walkLog + ItemLog(items[i], orderId, reply, AlertNumber(sent, w))
  {
    WalkPrefixStep(items, i, orderId);
    WalkLogStep(items, i, orderId, reply, sent);
    VisitStep(w, items[i], orderId);
  }

  /** When the walk throws at item i, the walk over all the items is the walk
      over the prefix up to i, and so are its records. */
  lemma WalkThrownAt(items: seq<Item>, i: nat, orderId: Option<string>, reply: nat -> Reply, sent: nat)
    requires i < |items| && WalkItems(items[..i + 1], orderId).failed
    ensures WalkItems(items, orderId) == WalkItems(items[..i + 1], orderId)
    ensures WalkLog(items, orderId, reply, sent) == WalkLog(items[..i + 1], orderId, reply, sent)
  {
    FailedPrefixIsFinal(items, i, orderId);
    var p, q := items[..i + 1], items[i + 1..];
    assert p + q == items;
    WalkLogAfterThrow(p, q, orderId, reply, sent);
  }

  /** A walk that does not throw: processing the order writes only the
      records of the walk. */
  lemma CompletedWalk(order: Order, reply: nat -> Reply, sent: nat)
    requires order.items.Some? && !WalkItems(order.items.value, order.id).failed
    ensures OrderLog(order, reply, sent) == WalkLog(order.items.value, order.id, reply, sent)
  {
    var walkLog := WalkLog(order.items.value, order.id, reply, sent);
    assert walkLog + [] == walkLog;
  }
}
