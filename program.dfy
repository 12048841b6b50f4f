/**
 The program itself: one object holding what the run changes (the diagnostic
 log, the alerts posted to the alert API and the batches posted to the update
 API) and the replies its HTTP endpoints give, with one method per routine.
 Every routine but `Run` catches its own exceptions, so none of them fails its
 caller.
 */
module OrdersProgram {
  import opened OrdersModel
  import opened Delivery
  import opened Processing
  import opened ProcessingLog
  import opened Reporting

  class Program {
    /** How the GET of the orders API ends. */
    const fetchReply: FetchReply
    /** How the n-th POST to the alert API (counting from 0) ends. */
    const alertReply: nat -> Reply
    /** How the POST to the update API ends. */
    const updateReply: Reply

    /** The diagnostic log, append-only. */
    var log: seq<LogRecord>
    /** Every alert POSTed, in order. */
    var alerts: seq<Alert>
    /** Every batch POSTed to the update API, in order. */
    var updates: seq<seq<Order>>

    constructor (fetchReply: FetchReply, alertReply: nat -> Reply, updateReply: Reply)
      ensures this.fetchReply == fetchReply && this.alertReply == alertReply && this.updateReply == updateReply
      ensures log == [] && alerts == [] && updates == []
    {
      this.fetchReply := fetchReply;
      this.alertReply := alertReply;
      this.updateReply := updateReply;
      log, alerts, updates := [], [], [];
    }

    /** The whole run: fetch, process every order in turn into an array of the
        same length, post that array once when it is not empty, and return 0. */
    method Run() returns (code: int)
      modifies this
      ensures code == 0
      ensures
        var orders := Fetched(fetchReply);
        && updates == old(updates) + (if |orders| > 0 then [ProcessAll(orders)] else [])
        && alerts == old(alerts) + AllAlerts(orders)
        && log == old(log) + [AppStarted] + FetchLog(fetchReply)
                  + RunLog(orders, alertReply, |old(alerts)|)
                  + (if |orders| > 0 then UpdateLog(ProcessAll(orders), updateReply) else [])
                  + [AppEnded]
    {
      log := log + [AppStarted];
      var orders := FetchMedicalEquipmentOrders();
      ghost var logBefore, alertsBefore := log, alerts;
      var n := |orders|;
      var updated := new Order[n];
      for i := 0 to n
        invariant updated[..i] == ProcessAll(orders[..i])
        invariant alerts == alertsBefore + AllAlerts(orders[..i])
        invariant log == logBefore + RunLog(orders[..i], alertReply, |alertsBefore|)
        invariant updates == old(updates)
      {
        ghost var sent := |alerts|;
        ProcessAllStep(orders, i);
        AllAlertsStep(orders, i);
        RunLogStep(orders, i, alertReply, |alertsBefore|, sent);
        var order := ProcessOrder(orders[i]);
        AppendAssoc(alertsBefore, AllAlerts(orders[..i]), OrderAlerts(orders[i]));
        AppendAssoc(logBefore, RunLog(orders[..i], alertReply, |alertsBefore|), OrderLog(orders[i], alertReply, sent));
        updated[i] := order;
        assert updated[..i + 1] == updated[..i] + [order];
      }
      assert orders[..n] == orders;
      assert updated[..] == updated[..n];
      ghost var logRun := log;
      assert logRun == old(log) + [AppStarted] + FetchLog(fetchReply) + RunLog(orders, alertReply, |old(alerts)|);
      if updated.Length > 0 {
        PostUpdatedOrders(updated);
      }
      assert log == logRun + (if n > 0 then UpdateLog(ProcessAll(orders), updateReply) else []);
      log := log + [AppEnded];
      code := 0;
    }

    /** Reads the orders: the parsed list on success, an empty list on any
        failure, never an exception. */
    method FetchMedicalEquipmentOrders() returns (orders: seq<Order>)
      modifies this
      ensures orders == Fetched(fetchReply)
      ensures log == old(log) + FetchLog(fetchReply)
      ensures alerts == old(alerts) && updates == old(updates)
    {
      match fetchReply
      case FetchFaulted =>
        log := log + [FetchFailed];
        orders := [];
      case FetchRejected =>
        orders := [];
      case FetchBody(json) =>
        if json == Some([]) {
          log := log + [ZeroOrdersFound];
        }
        if json.Some? {
          orders := json.value;
        } else {
          orders := [];
        }
    }

    /** Processes one order: walks a copy of its items, posting an alert for
        each delivered item and then incrementing that item's count, and writes
        the copy back into the order only when the whole walk succeeds. An
        exception is logged and the order comes back as it came in. */
    method ProcessOrder(order: Order) returns (result: Order)
      modifies this
      ensures result == ProcessedOrder(order)
      ensures alerts == old(alerts) + OrderAlerts(order)
      ensures log == old(log) + OrderLog(order, alertReply, |old(alerts)|)
      ensures updates == old(updates)
    {
      if order.items.None? {
        log := log + [ProcessFailed];
        assert OrderLog(order, alertReply, |old(alerts)|) == [ProcessFailed];
        return order;
      }
      var thrown, copy := WalkCopy(order.items.value, order.id);
      if thrown {
        log := log + [ProcessFailed];
        AppendAssoc(old(log), WalkLog(order.items.value, order.id, alertReply, |old(alerts)|), [ProcessFailed]);
        return order;
      }
      CompletedWalk(order, alertReply, |old(alerts)|);
      result := order.(items := Some(copy));
    }

    /** The loop over the copied items: visits them in order and stops at the
        first exception, which it reports in `thrown`; `copy` holds the items
        as the loop left them. */
    method WalkCopy(items: seq<Item>, orderId: Option<string>) returns (thrown: bool, copy: seq<Item>)
      modifies this
      ensures thrown == WalkItems(items, orderId).failed
      ensures !thrown ==> copy == WalkItems(items, orderId).items
      ensures alerts == old(alerts) + WalkItems(items, orderId).alerts
      ensures log == old(log) + WalkLog(items, orderId, alertReply, |old(alerts)|)
      ensures updates == old(updates)
    {
      thrown, copy := false, items;
      ghost var sent := |alerts|;
      // the walk so far and the records it wrote
      ghost var w, walkLog := Walk([], [], false), [];
      var i := 0;
      while i < |copy|
        invariant 0 <= i <= |copy| == |items|
        invariant w == WalkItems(items[..i], orderId) && !w.failed
        invariant walkLog == WalkLog(items[..i], orderId, alertReply, sent)
        invariant copy[..i] == w.items
        invariant forall k :: i <= k < |items| ==> copy[k] == items[k]
        invariant alerts == old(alerts) + w.alerts
        invariant log == old(log) + walkLog
        invariant updates == old(updates)
      {
        var item := copy[i];
        assert item == items[i];
        ghost var n := |alerts|;
        assert n == AlertNumber(sent, w);
        ghost var tail := ItemLog(item, orderId, alertReply, n);
        ghost var next := WalkItems(items[..i + 1], orderId);
        WalkLoopStep(items, i, orderId, alertReply, sent, w, walkLog);
        var visited;
        thrown, visited := VisitItem(item, orderId);
        AppendAssoc(old(alerts), w.alerts, IterationAlerts(item, orderId));
        AppendAssoc(old(log), walkLog, tail);
        w, walkLog := next, walkLog + tail;
        if thrown {
          WalkThrownAt(items, i, orderId, alertReply, sent);
          return;
        }
        copy := copy[i := visited];
        assert copy[..i + 1] == copy[..i] + [visited];
        i := i + 1;
      }
      assert items[..i] == items;
      assert copy == copy[..i];
    }

    /** One pass of the loop over the copied items: the delivered check, then
        for a delivered item the alert (which needs the order id) and the
        increment (which needs an int count). `thrown` reports the exception
        that ends the loop. */
    method VisitItem(item: Item, orderId: Option<string>) returns (thrown: bool, visited: Item)
      modifies this
      ensures thrown == Faulty(item, orderId)
      ensures !thrown ==> visited == Visited(item)
      ensures alerts == old(alerts) + IterationAlerts(item, orderId)
      ensures log == old(log) + ItemLog(item, orderId, alertReply, |old(alerts)|)
      ensures updates == old(updates)
    {
      thrown, visited := false, item;
      var delivered := IsItemDelivered(item);
      if delivered {
        if orderId.None? {
          thrown := true;
          return;
        }
        SendAlertMessage(item, orderId.value);
        AppendAssoc(old(log), StatusLog(item), AlertCall(item, alertReply(|old(alerts)|)));
        if item.count.None? {
          thrown := true;
          return;
        }
        visited := item.(count := Some(Increment(item.count.value)));
      }
    }

    /** The delivered check as the program runs it: the verdict of Delivered,
        and one error record when `Status` cannot be read. */
    method IsItemDelivered(item: Item) returns (delivered: bool)
      modifies this
      ensures delivered == Delivered(item)
      ensures log == old(log) + StatusLog(item)
      ensures alerts == old(alerts) && updates == old(updates)
    {
      if item.Entry? && item.status.Some? {
        delivered := EqualsIgnoreCase(item.status.value, DELIVERED);
      } else {
        log := log + [StatusUnreadable];
        delivered := false;
      }
    }

    /** Posts one alert for the item and logs how the POST ended. An item
        that is not an object throws before the POST: nothing is sent and
        one error record is written. */
    method SendAlertMessage(item: Item, orderId: string)
      modifies this
      ensures alerts == old(alerts) + AlertsPosted(item, orderId)
      ensures log == old(log) + AlertCall(item, alertReply(|old(alerts)|))
      ensures updates == old(updates)
    {
      if item.NotAnObject? {
        log := log + [AlertFailed];
        return;
      }
      var message := Alert(orderId, item.description, item.count);
      var reply := alertReply(|alerts|);
      alerts := alerts + [message];
      match reply
      case Succeeded => log := log + [AlertSent(item.description)];
      case Rejected => log := log + [AlertNotSent(item.description)];
      case Faulted => log := log + [AlertFailed];
    }

    /** Posts the whole batch once, then writes one record per order in batch
        order, all "sent" or all "failed" according to the one reply; an
        exception writes a single error record instead. */
    method PostUpdatedOrders(orders: array<Order>)
      modifies this
      ensures updates == old(updates) + [orders[..]]
      ensures log == old(log) + UpdateLog(orders[..], updateReply)
      ensures alerts == old(alerts)
    {
      updates := updates + [orders[..]];
      var reply := updateReply;
      if reply == Faulted {
        log := log + [UpdateFailed];
        return;
      }
      var i := 0;
      if reply == Succeeded {
        while i < orders.Length
          invariant 0 <= i <= orders.Length
          invariant log == old(log) + UpdateRecords(orders[..i], true)
          invariant updates == old(updates) + [orders[..]] && alerts == old(alerts)
        {
          assert orders[..i + 1][..i] == orders[..i];
          log := log + [OrderSent(orders[i].id)];
          i := i + 1;
        }
      } else {
        while i < orders.Length
          invariant 0 <= i <= orders.Length
          invariant log == old(log) + UpdateRecords(orders[..i], false)
          invariant updates == old(updates) + [orders[..]] && alerts == old(alerts)
        {
          assert orders[..i + 1][..i] == orders[..i];
          log := log + [OrderNotSent(orders[i].id)];
          i := i + 1;
        }
      }
      assert orders[..i] == orders[..];
    }
  }
}
