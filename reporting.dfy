/**
 The run as a whole, stated on values: what the fetch hands back and logs, the
 orders collected after processing, the alerts and records of all orders in
 sequence, and the per-order records of the batch update.
 */
module Reporting {
  import opened OrdersModel
  import opened Processing
  import opened ProcessingLog

  /** The orders the fetch returns: the parsed list on a success status, and
      an empty list on any exception, non-success status or (defensively) a
      null parse result. It never returns anything but the parsed body. */
  function Fetched(reply: FetchReply): (orders: seq<Order>)
    ensures orders != [] ==> reply == FetchBody(Some(orders))
    ensures reply.FetchFaulted? || reply.FetchRejected? ==> orders == []
    ensures reply.FetchBody? && reply.json.Some? ==> orders == reply.json.value
  {
    match reply
    case FetchBody(Some(json)) => json
    case _ => []
  }

  /** The records the fetch writes: one error record on an exception, one
      notice when the body parsed to an empty list, and none otherwise (a
      non-success status and a null parse result write nothing). */
  function FetchLog(reply: FetchReply): (records: seq<LogRecord>)
    ensures |records| <= 1
    ensures FetchFailed in records <==> reply.FetchFaulted?
    ensures ZeroOrdersFound in records <==> reply == FetchBody(Some([]))
    ensures reply.FetchRejected? ==> records == []
    ensures reply.FetchBody? && reply.json != Some([]) ==> records == []
  {
    match reply
    case FetchFaulted => [FetchFailed]
    case FetchRejected => []
    case FetchBody(json) => if json == Some([]) then [ZeroOrdersFound] else []
  }

  /** The orders as the run collects them: the i-th fetched order, processed. */
  function ProcessAll(orders: seq<Order>): seq<Order> {
    seq(|orders|, i requires 0 <= i < |orders| => ProcessedOrder(orders[i]))
  }

  /** The alerts of all orders, order by order. */
  function AllAlerts(orders: seq<Order>): seq<Alert> {
    Concat(orders, OrderAlerts)
  }

  /** OrderLog as a function of the order and of the number of its first alert. */
  function OrderRecords(reply: nat -> Reply): (Order, nat) -> seq<LogRecord> {
    (order: Order, n: nat) => OrderLog(order, reply, n)
  }

  /** The records of all orders, order by order; each order's alerts are
      numbered after those of the orders before it. */
  function RunLog(orders: seq<Order>, reply: nat -> Reply, sent: nat): seq<LogRecord> {
    ConcatNumbered(orders, OrderRecords(reply), OrderAlerts, sent)
  }

  /** The record the batch update writes for one order. */
  function UpdateRecord(order: Order, sent: bool): LogRecord {
    if sent then OrderSent(order.id) else OrderNotSent(order.id)
  }

  /** The records of the loop over the batch, one order at a time. */
  function UpdateRecords(orders: seq<Order>, sent: bool): seq<LogRecord> {
    if |orders| == 0 then []
    else UpdateRecords(orders[..|orders| - 1], sent) + [UpdateRecord(orders[|orders| - 1], sent)]
  }

  /** The records the batch update writes for the reply of its one POST. */
  function UpdateLog(orders: seq<Order>, reply: Reply): seq<LogRecord> {
    if reply == Faulted then [UpdateFailed] else UpdateRecords(orders, reply == Succeeded)
  }

  /** The batch update writes one record per order, in batch order, naming
      that order's id: all "sent" when the POST succeeded, all "failed"
      when it got another status; an exception writes a single record. */
  lemma {:induction false} UpdateLogOnePerOrder(orders: seq<Order>, reply: Reply)
    ensures reply == Faulted ==> UpdateLog(orders, reply) == [UpdateFailed]
    ensures reply != Faulted ==>
      var log := UpdateLog(orders, reply);
      |log| == |orders| &&
      forall i :: 0 <= i < |orders| ==>
        log[i] == (if reply == Succeeded then OrderSent(orders[i].id) else OrderNotSent(orders[i].id))
  {
    if reply != Faulted && orders != [] {
      var init := orders[..|orders| - 1];
      UpdateLogOnePerOrder(init, reply);
      assert forall i :: 0 <= i < |init| ==> init[i] == orders[i];
    }
  }

  /** Every order is processed on its own: the i-th collected order is the
      i-th fetched one processed, whatever the other orders hold. */
  lemma ProcessingIsPerOrder(orders: seq<Order>, others: seq<Order>, i: nat)
    requires i < |orders| && i < |others| && orders[i] == others[i]
    ensures |ProcessAll(orders)| == |orders|
    ensures ProcessAll(orders)[i] == ProcessAll(others)[i] == ProcessedOrder(orders[i])
  {
  }

  /** Collecting one more order appends that order, processed. */
  lemma ProcessAllStep(orders: seq<Order>, i: nat)
    requires i < |orders|
    ensures ProcessAll(orders[..i + 1]) == ProcessAll(orders[..i]) + [ProcessedOrder(orders[i])]
  {
    var p, q := ProcessAll(orders[..i + 1]), ProcessAll(orders[..i]) + [ProcessedOrder(orders[i])];
    assert |p| == |q|;
    forall k | 0 <= k < |p| ensures p[k] == q[k] {
      assert orders[..i + 1][k] == orders[k];
    }
  }

  /** One more order appends that order's alerts. */
  lemma AllAlertsStep(orders: seq<Order>, i: nat)
    requires i < |orders|
    ensures AllAlerts(orders[..i + 1]) == AllAlerts(orders[..i]) + OrderAlerts(orders[i])
  {
    ConcatStep(orders, i, OrderAlerts);
  }

  /** One more order appends that order's records, its alerts numbered from
      n, the count of alerts posted before it. */
  lemma RunLogStep(orders: seq<Order>, i: nat, reply: nat -> Reply, sent: nat, n: nat)
    requires i < |orders|
    requires n == sent + |AllAlerts(orders[..i])|
    ensures RunLog(orders[..i + 1], reply, sent) == RunLog(orders[..i], reply, sent) + OrderLog(orders[i], reply, n)
  {
    ConcatNumberedStep(orders, i, OrderRecords(reply), OrderAlerts, sent, n);
  }

  /** A concatenation whose every piece has one alert record per alert of
      the piece, matching its reply, has one per alert of the whole, in order. */
  lemma {:induction false} ConcatNumberedAlertRecords<X>(xs: seq<X>, f: (X, nat) -> seq<LogRecord>, g: X -> seq<Alert>,
                                                         reply: nat -> Reply, start: nat)
    requires forall x, n :: AlertRecords(f(x, n)) == AlertReplies(g(x), reply, n)
    ensures AlertRecords(ConcatNumbered(xs, f, g, start)) == AlertReplies(Concat(xs, g), reply, start)
  {
    if |xs| != 0 {
      var init, last := xs[..|xs| - 1], xs[|xs| - 1];
      var n := start + |Concat(init, g)|;
      ConcatNumberedAlertRecords(init, f, g, reply, start);
      AlertRecordsAppend(ConcatNumbered(init, f, g, start), f(last, n));
      AlertRepliesAppend(Concat(init, g), g(last), reply, start, n);
    }
  }

  /** The alert records of the whole run are one per alert posted, in the
      order of posting, each matching the reply to that POST. */
  lemma RunLogAlertRecords(orders: seq<Order>, reply: nat -> Reply, sent: nat)
    ensures AlertRecords(RunLog(orders, reply, sent)) == AlertReplies(AllAlerts(orders), reply, sent)
  {
    forall order, n ensures AlertRecords(OrderRecords(reply)(order, n)) == AlertReplies(OrderAlerts(order), reply, n) {
      OrderLogAlertRecords(order, reply, n);
    }
    ConcatNumberedAlertRecords(orders, OrderRecords(reply), OrderAlerts, reply, sent);
  }
}
