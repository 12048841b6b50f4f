/**
 What processing one order does, stated on values: the walk over the copied
 `Items` array (which items change, which alerts are posted, where an exception
 stops the walk) and the order that comes back.
 */
module Processing {
  import opened OrdersModel
  import opened Delivery

  /** The alert posted for a delivered item of order `orderId`. */
  function AlertFor(item: Item, orderId: string): Alert
    requires item.Entry?
  {
    Alert(orderId, item.description, item.count)
  }

  /** The item gets an alert: it is delivered and the order has an id. */
  predicate Posts(item: Item, orderId: Option<string>) {
    Delivered(item) && orderId.Some?
  }

  /** The alerts one iteration posts. */
  function IterationAlerts(item: Item, orderId: Option<string>): seq<Alert> {
    if Posts(item, orderId) then [AlertFor(item, orderId.value)] else []
  }

  /** The alerts the alert call posts: one for an item that is an object; an
      item that is not throws before the POST. */
  function AlertsPosted(item: Item, orderId: string): seq<Alert> {
    if item.Entry? then [AlertFor(item, orderId)] else []
  }

  /** The state of the walk after a prefix of the copied items: the items
      visited so far as they now stand, the alerts posted, and whether an
      exception has ended the walk. */
  datatype Walk = Walk(items: seq<Item>, alerts: seq<Alert>, failed: bool)

  /** One loop iteration. A delivered item needs `OrderId` (read before the
      alert is posted) and then an int `deliveryNotification` (read after it). */
  function Visit(w: Walk, item: Item, orderId: Option<string>): Walk {
    if w.failed then w
    else if !Delivered(item) then Walk(w.items + [item], w.alerts, false)
    else if orderId.None? then Walk(w.items, w.alerts, true)
    else
      var alerts := w.alerts + [AlertFor(item, orderId.value)];
      if item.count.None? then Walk(w.items, alerts, true)
      else Walk(w.items + [Visited(item)], alerts, false)
  }

  /** The item as an iteration that does not throw leaves it: a delivered item
      with its count incremented, any other item unchanged. */
  function Visited(item: Item): Item
    requires Delivered(item) ==> item.count.Some?
  {
    if Delivered(item) then item.(count := Some(Increment(item.count.value))) else item
  }

  /** The walk over `items`, in order. */
  function WalkItems(items: seq<Item>, orderId: Option<string>): (w: Walk)
    ensures |w.items| <= |items|
    ensures !w.failed ==> |w.items| == |items|
  {
    if |items| == 0 then Walk([], [], false)
    else Visit(WalkItems(items[..|items| - 1], orderId), items[|items| - 1], orderId)
  }

  /** Processing the order throws: `Items` is unusable, or the walk failed. */
  predicate Fails(order: Order) {
    order.items.None? || WalkItems(order.items.value, order.id).failed
  }

  /** The order processing returns: with the walked items written back when the
      whole walk succeeded, and exactly as it came in otherwise. */
  function ProcessedOrder(order: Order): Order {
    if Fails(order) then order
    else order.(items := Some(WalkItems(order.items.value, order.id).items))
  }

  /** The alerts processing the order posts. */
  function OrderAlerts(order: Order): seq<Alert> {
    if order.items.None? then [] else WalkItems(order.items.value, order.id).alerts
  }

  // ---------------------------------------------------------------------------
  // Reference definitions

  /** How a successful walk changes one item: a delivered item gets its count
      incremented and nothing else; any other item stays as it is. */
  predicate Bumped(before: Item, after: Item) {
    if Delivered(before) then
      before.count.Some? && after == before.(count := Some(Increment(before.count.value)))
    else after == before
  }

  /** One alert per delivered item, in item order, each carrying the count the
      item had before the walk. */
  function DeliveredAlerts(items: seq<Item>, orderId: string): seq<Alert> {
    if |items| == 0 then []
    else
      (if Delivered(items[0]) then [AlertFor(items[0], orderId)] else []) +
      DeliveredAlerts(items[1..], orderId)
  }

  /** The item at which the walk throws. */
  predicate Faulty(item: Item, orderId: Option<string>) {
    Delivered(item) && (orderId.None? || item.count.None?)
  }

  // ---------------------------------------------------------------------------
  // Lemmas

  lemma {:induction false} DeliveredAlertsAppend(items: seq<Item>, item: Item, orderId: string)
    ensures DeliveredAlerts(items + [item], orderId) ==
      DeliveredAlerts(items, orderId) + (if Delivered(item) then [AlertFor(item, orderId)] else [])
  {
    if |items| == 0 {
      assert items + [item] == [item];
    } else {
      var head := if Delivered(items[0]) then [AlertFor(items[0], orderId)] else [];
      var last := if Delivered(item) then [AlertFor(item, orderId)] else [];
      assert (items + [item])[0] == items[0];
      assert (items + [item])[1..] == items[1..] + [item];
      assert DeliveredAlerts(items + [item], orderId) == head + DeliveredAlerts(items[1..] + [item], orderId);
      DeliveredAlertsAppend(items[1..], item, orderId);
      AppendAssoc(head, DeliveredAlerts(items[1..], orderId), last);
    }
  }

  /** Once the walk has thrown, the remaining items change nothing. */
  lemma {:induction false} FailedWalkIsFinal(p: seq<Item>, q: seq<Item>, orderId: Option<string>)
    requires WalkItems(p, orderId).failed
    ensures WalkItems(p + q, orderId) == WalkItems(p, orderId)
  {
    if |q| == 0 {
      assert p + q == p;
    } else {
      var q' := q[..|q| - 1];
      assert (p + q)[..|p + q| - 1] == p + q';
      assert (p + q)[|p + q| - 1] == q[|q| - 1];
      FailedWalkIsFinal(p, q', orderId);
    }
  }

  /** The walk throws exactly when some delivered item finds no `OrderId` or no
      int `deliveryNotification`. */
  lemma {:induction false} WalkFailsIff(items: seq<Item>, orderId: Option<string>)
    ensures WalkItems(items, orderId).failed <==>
      exists k :: 0 <= k < |items| && Faulty(items[k], orderId)
  {
    if |items| != 0 {
      var init := items[..|items| - 1];
      WalkFailsIff(init, orderId);
      assert forall k :: 0 <= k < |init| ==> init[k] == items[k];
    }
  }

  /** After a walk that did not throw: as many items as before, in the same
      order, each delivered one with its count incremented and nothing else
      changed, every other one untouched; and one alert per delivered item in
      item order, carrying the count before the increment. */
  lemma {:induction false} SuccessfulWalk(items: seq<Item>, orderId: Option<string>)
    requires !WalkItems(items, orderId).failed
    ensures |WalkItems(items, orderId).items| == |items|
    ensures forall k :: 0 <= k < |items| ==> Bumped(items[k], WalkItems(items, orderId).items[k])
    ensures orderId.None? ==> WalkItems(items, orderId).alerts == []
    ensures orderId.Some? ==> WalkItems(items, orderId).alerts == DeliveredAlerts(items, orderId.value)
  {
    if |items| != 0 {
      var init, item := items[..|items| - 1], items[|items| - 1];
      assert init + [item] == items;
      var w := WalkItems(init, orderId);
      assert !w.failed;
      SuccessfulWalk(init, orderId);
      var w' := WalkItems(items, orderId);
      forall k | 0 <= k < |items| ensures Bumped(items[k], w'.items[k]) {
        if k < |init| {
          assert items[k] == init[k];
          assert w'.items[k] == w.items[k];
        }
      }
      if orderId.Some? {
        DeliveredAlertsAppend(init, item, orderId.value);
      }
    }
  }

  /** When the walk throws at item k (the first faulty item), the alerts already
      posted stay posted: those of the delivered items before k and, when the
      order has an id (so the fault is the missing count), the one for item k. */
  lemma FailedWalkAlerts(items: seq<Item>, orderId: Option<string>, k: nat)
    requires k < |items| && Faulty(items[k], orderId)
    requires forall j :: 0 <= j < k ==> !Faulty(items[j], orderId)
    ensures WalkItems(items, orderId).failed
    ensures orderId.None? ==> WalkItems(items, orderId).alerts == []
    ensures orderId.Some? ==> WalkItems(items, orderId).alerts == DeliveredAlerts(items[..k + 1], orderId.value)
  {
    WalkToFault(items, orderId, k);
    FailedPrefixIsFinal(items, k, orderId);
  }

  /** The walk up to and including the first faulty item k. */
  lemma WalkToFault(items: seq<Item>, orderId: Option<string>, k: nat)
    requires k < |items| && Faulty(items[k], orderId)
    requires forall j :: 0 <= j < k ==> !Faulty(items[j], orderId)
    ensures WalkItems(items[..k + 1], orderId).failed
    ensures orderId.None? ==> WalkItems(items[..k + 1], orderId).alerts == []
    ensures orderId.Some? ==> WalkItems(items[..k + 1], orderId).alerts == DeliveredAlerts(items[..k + 1], orderId.value)
  {
    var before := items[..k];
    assert forall j :: 0 <= j < |before| ==> before[j] == items[j];
    WalkFailsIff(before, orderId);
    SuccessfulWalk(before, orderId);
    WalkPrefixStep(items, k, orderId);
    VisitStep(WalkItems(before, orderId), items[k], orderId);
    if orderId.Some? {
      assert items[..k + 1] == before + [items[k]];
      DeliveredAlertsAppend(before, items[k], orderId.value);
    }
  }

  /** When the walk has thrown by item i, the items after it change nothing. */
  lemma {:induction false} FailedPrefixIsFinal(items: seq<Item>, i: nat, orderId: Option<string>)
    requires i < |items| && WalkItems(items[..i + 1], orderId).failed
    ensures WalkItems(items, orderId) == WalkItems(items[..i + 1], orderId)
    decreases |items|
  {
    if |items| == i + 1 {
      assert items[..i + 1] == items;
    } else {
      var init := items[..|items| - 1];
      assert init[..i + 1] == items[..i + 1];
      FailedPrefixIsFinal(init, i, orderId);
    }
  }

  /** The order that comes back from processing: the same id always; on success
      the same number of items in the same order, each changed as Bumped says,
      and one alert per delivered item; on failure the order as it came in. */
  lemma ProcessedOrderSpec(order: Order)
    ensures ProcessedOrder(order).id == order.id
    ensures Fails(order) ==> ProcessedOrder(order) == order
    ensures !Fails(order) ==>
      var items, result := order.items.value, ProcessedOrder(order).items;
      result.Some? && |result.value| == |items| &&
      (forall k :: 0 <= k < |items| ==> Bumped(items[k], result.value[k])) &&
      OrderAlerts(order) == (if order.id.Some? then DeliveredAlerts(items, order.id.value) else [])
  {
    if !Fails(order) {
      SuccessfulWalk(order.items.value, order.id);
    }
  }

  /** A delivered item is still delivered once bumped, and finds its count. */
  lemma BumpedStaysDelivered(before: Item, after: Item)
    requires Bumped(before, after)
    ensures Delivered(after) == Delivered(before)
    ensures Delivered(before) ==> after.count.Some?
  {
    if Delivered(before) {
      DeliveredIff(before);
      DeliveredIff(after);
    }
  }

  /** An order that processed without an exception processes without one again. */
  lemma SuccessIsStable(order: Order)
    requires !Fails(order)
    ensures !Fails(ProcessedOrder(order))
  {
    var items, id := order.items.value, order.id;
    SuccessfulWalk(items, id);
    var items1 := ProcessedOrder(order).items.value;
    WalkFailsIff(items, id);
    WalkFailsIff(items1, id);
    forall j | 0 <= j < |items1| ensures !Faulty(items1[j], id) {
      BumpedStaysDelivered(items[j], items1[j]);
      assert !Faulty(items[j], id);
    }
  }

  /** Processing is not idempotent: processing the returned order again
      succeeds too and increments each delivered count a second time. */
  lemma ReprocessingIncrementsAgain(order: Order, k: nat)
    requires !Fails(order)
    requires k < |order.items.value| && Delivered(order.items.value[k])
    ensures !Fails(ProcessedOrder(order))
    ensures
      var before, twice := order.items.value[k], ProcessedOrder(ProcessedOrder(order)).items;
      before.count.Some? && twice.Some? && k < |twice.value| && twice.value[k].Entry? &&
      (before.count.value < INT32_MAX - 1 ==> twice.value[k].count == Some(before.count.value + 2))
  {
    var items, id := order.items.value, order.id;
    SuccessIsStable(order);
    SuccessfulWalk(items, id);
    var once := ProcessedOrder(order);
    var items1 := once.items.value;
    assert Bumped(items[k], items1[k]);
    BumpedStaysDelivered(items[k], items1[k]);
    SuccessfulWalk(items1, id);
    assert Bumped(items1[k], ProcessedOrder(once).items.value[k]);
  }

  /** One iteration of a walk that has not thrown: it throws exactly at a
      faulty item, appends the iteration's alerts either way, and, when it
      does not throw, appends the visited item. */
  lemma VisitStep(w: Walk, item: Item, orderId: Option<string>)
    requires !w.failed
    ensures Visit(w, item, orderId).failed == Faulty(item, orderId)
    ensures Visit(w, item, orderId).alerts == w.alerts + IterationAlerts(item, orderId)
    ensures !Faulty(item, orderId) ==> Visit(w, item, orderId).items == w.items + [Visited(item)]
  {
  }

  /** The walk over a prefix one item longer is one more Visit. */
  lemma WalkPrefixStep(items: seq<Item>, i: nat, orderId: Option<string>)
    requires i < |items|
    ensures WalkItems(items[..i + 1], orderId) == Visit(WalkItems(items[..i], orderId), items[i], orderId)
  {
    assert items[..i + 1][..i] == items[..i];
  }

  /** An order with one item: a delivered item with a count comes back
      incremented and gets one alert; any other item leaves the order as it
      was and gets none. */
  lemma OneItemOrder(id: string, item: Item)
    ensures
      var order := Order(Some(id), Some([item]));
      && (Delivered(item) && item.count.Some? ==>
            ProcessedOrder(order).items == Some([Visited(item)]) && OrderAlerts(order) == [AlertFor(item, id)])
      && (!Delivered(item) ==> ProcessedOrder(order) == order && OrderAlerts(order) == [])
  {
    assert [item][..0] == [];
    assert WalkItems([item], Some(id)) == Visit(Walk([], [], false), item, Some(id));
    if !Delivered(item) {
      assert [] + [item] == [item];
    } else if item.count.Some? {
      assert [] + [Visited(item)] == [Visited(item)];
    }
  }

  /** Concrete cases: a delivered item's count goes from 0 to 1 and one alert
      names it; an item that is not delivered keeps its count and posts none. */
  lemma ProcessingExamples()
    ensures
      var item := Entry(Some("Delivered"), Some("X-Ray machine"), Some(0));
      var order := Order(Some("1"), Some([item]));
      && ProcessedOrder(order).items == Some([item.(count := Some(1))])
      && OrderAlerts(order) == [Alert("1", Some("X-Ray machine"), Some(0))]
    ensures
      var order := Order(Some("1"), Some([Entry(Some("Ready_to_Deliver"), Some("LHZ 300 Kit"), Some(0))]));
      ProcessedOrder(order) == order && OrderAlerts(order) == []
  {
    DeliveredExamples();
    var delivered := Entry(Some("Delivered"), Some("X-Ray machine"), Some(0));
    OneItemOrder("1", delivered);
    OneItemOrder("1", Entry(Some("Ready_to_Deliver"), Some("LHZ 300 Kit"), Some(0)));
    assert Visited(delivered) == delivered.(count := Some(1));
  }
}
