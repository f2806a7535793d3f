/**
 * The order lifecycle of the admin panel: status and payment labels, the transitions the
 * order cards offer, advancing and rejecting an order with its append-only status history,
 * and the newest-first listing.
 */
module Orders {
  import opened Wrappers
  import opened Records
  import opened Sequences
  import opened Storage

  const Pending: string := "pending"
  const Confirmed: string := "confirmed"
  const Ready: string := "ready"
  const Delivered: string := "delivered"
  const Rejected: string := "rejected"
  const KnownStatuses: set<string> := {Pending, Confirmed, Ready, Delivered, Rejected}

  const Cash: string := "cash"
  const Card: string := "card"
  const Pix: string := "pix"
  const KnownPayments: set<string> := {Cash, Card, Pix}

  /** Prefix of the history description written when an order is rejected. */
  const RejectionPrefix: string := "Pedido recusado: "

  // ---------------------------------------------------------------- labels

  /** `getStatusLabel`: the label of a known status; any other text is echoed back. */
  function StatusLabel(status: string): (text: string)
    ensures text == status <==> status !in KnownStatuses
    ensures status in KnownStatuses ==> text !in KnownStatuses
  {
    if status == Pending then "Aguardando Confirmação"
    else if status == Confirmed then "Em Preparação"
    else if status == Ready then "Pronto"
    else if status == Delivered then "Entregue"
    else if status == Rejected then "Recusado"
    else status
  }

  /** `getPaymentLabel`: the label of a known payment method; any other text is echoed back. */
  function PaymentLabel(payment: string): (text: string)
    ensures text == payment <==> payment !in KnownPayments
    ensures payment in KnownPayments ==> text !in KnownPayments
  {
    if payment == Cash then "Dinheiro"
    else if payment == Card then "Cartão"
    else if payment == Pix then "PIX"
    else payment
  }

  /** The fixed labels of the five statuses and three payment methods. */
  lemma LabelTables()
    ensures StatusLabel(Pending) == "Aguardando Confirmação"
    ensures StatusLabel(Confirmed) == "Em Preparação"
    ensures StatusLabel(Ready) == "Pronto"
    ensures StatusLabel(Delivered) == "Entregue"
    ensures StatusLabel(Rejected) == "Recusado"
    ensures PaymentLabel(Cash) == "Dinheiro"
    ensures PaymentLabel(Card) == "Cartão"
    ensures PaymentLabel(Pix) == "PIX"
  {
  }

  /** A label equals its input exactly when the input is not a known status. */
  lemma StatusLabelEchoesUnknown(status: string)
    ensures StatusLabel(status) == status <==> status !in KnownStatuses
    ensures StatusLabel(StatusLabel(status)) == StatusLabel(status)
  {
  }

  /** A label equals its input exactly when the input is not a known payment method. */
  lemma PaymentLabelEchoesUnknown(payment: string)
    ensures PaymentLabel(payment) == payment <==> payment !in KnownPayments
    ensures PaymentLabel(PaymentLabel(payment)) == PaymentLabel(payment)
  {
  }

  // ---------------------------------------------------------------- offered transitions

  /**
   * The target statuses the order card offers for an order in `status`: Confirm and
   * Reject while pending, Ready while confirmed, Delivered while ready. Rejection goes
   * through the reject prompt; the update operations themselves check none of this.
   */
  function OfferedTargets(status: string): (targets: set<string>)
    ensures targets <= KnownStatuses
    ensures targets == {} <==> status !in {Pending, Confirmed, Ready}
    ensures Pending !in targets
  {
    if status == Pending then {Confirmed, Rejected}
    else if status == Confirmed then {Ready}
    else if status == Ready then {Delivered}
    else {}
  }

  /** Position of a status along the lifecycle; terminal and unknown statuses are last. */
  function Stage(status: string): nat {
    if status == Pending then 0
    else if status == Confirmed then 1
    else if status == Ready then 2
    else 3
  }

  /** Each consecutive pair of `path` is a transition the order card offers. */
  predicate OfferedPath(path: seq<string>) {
    forall i :: 0 <= i < |path| - 1 ==> path[i + 1] in OfferedTargets(path[i])
  }

  /** Every offered transition moves strictly forward; delivered and rejected offer nothing. */
  lemma OfferedMovesForward(from: string, to: string)
    ensures to in OfferedTargets(from) ==> Stage(from) < Stage(to)
    ensures OfferedTargets(Delivered) == {} && OfferedTargets(Rejected) == {}
    ensures from !in KnownStatuses ==> OfferedTargets(from) == {}
  {
  }

  /** Along a path of offered transitions the stage grows by at least one per step. */
  lemma {:induction false} OfferedPathStages(path: seq<string>)
    requires |path| > 0 && OfferedPath(path)
    ensures Stage(path[|path| - 1]) >= Stage(path[0]) + |path| - 1
    decreases |path|
  {
    if |path| > 1 {
      var tail := path[1..];
      assert OfferedPath(tail) by {
        forall i | 0 <= i < |tail| - 1 ensures tail[i + 1] in OfferedTargets(tail[i]) {
          assert tail[i] == path[i + 1] && tail[i + 1] == path[i + 2];
        }
      }
      OfferedPathStages(tail);
      assert path[1] in OfferedTargets(path[0]);
      OfferedMovesForward(path[0], path[1]);
    }
  }

  /** No sequence of offered transitions has more than three steps: the lifecycle has no cycle. */
  lemma OfferedPathsAreShort(path: seq<string>)
    requires OfferedPath(path)
    ensures |path| <= 4
  {
    if |path| > 0 {
      OfferedPathStages(path);
    }
  }

  /** The happy path pending, confirmed, ready, delivered is offered step by step. */
  lemma HappyPathIsOffered()
    ensures OfferedPath([Pending, Confirmed, Ready, Delivered])
  {
  }

  // ---------------------------------------------------------------- one order

  /** The last history entry records the current status. */
  predicate HistoryConsistent(o: Order) {
    |o.statusHistory| > 0 && o.statusHistory[|o.statusHistory| - 1].status == o.status
  }

  /** The entry `updateOrderStatus` appends. */
  function AdvanceEntry(newStatus: string, now: Timestamp): StatusEntry {
    StatusEntry(newStatus, now, StatusLabel(newStatus))
  }

  /** The entry `rejectOrder` appends: its description embeds the reason. */
  function RejectionEntry(reason: string, now: Timestamp): StatusEntry {
    StatusEntry(Rejected, now, RejectionPrefix + reason)
  }

  /** The order after `updateOrderStatus` overwrote its status and pushed one entry. */
  function WithStatus(o: Order, newStatus: string, now: Timestamp): (r: Order)
    ensures r.id == o.id && r.status == newStatus && HistoryConsistent(r)
    ensures |r.statusHistory| == |o.statusHistory| + 1
  {
    o.(status := newStatus, statusHistory := o.statusHistory + [AdvanceEntry(newStatus, now)])
  }

  /** The order after `rejectOrder` set its status, its reason and pushed one entry. */
  function WithRejection(o: Order, reason: string, now: Timestamp): (r: Order)
    ensures r.id == o.id && r.status == Rejected && HistoryConsistent(r)
    ensures r.rejectionReason == Some(reason)
    ensures |r.statusHistory| == |o.statusHistory| + 1
  {
    o.(status := Rejected, rejectionReason := Some(reason),
       statusHistory := o.statusHistory + [RejectionEntry(reason, now)])
  }

  /** Advancing an order: status, one new last entry, earlier entries and all else kept. */
  lemma WithStatusRecordsTransition(o: Order, newStatus: string, now: Timestamp)
    ensures var r := WithStatus(o, newStatus, now);
      && r.status == newStatus
      && |r.statusHistory| == |o.statusHistory| + 1
      && r.statusHistory[..|o.statusHistory|] == o.statusHistory
      && r.statusHistory[|o.statusHistory|] == StatusEntry(newStatus, now, StatusLabel(newStatus))
      && HistoryConsistent(r)
      && r.id == o.id && r.orderNumber == o.orderNumber && r.customer == o.customer
      && r.items == o.items && r.total == o.total && r.paymentMethod == o.paymentMethod
      && r.isDelivery == o.isDelivery && r.rejectionReason == o.rejectionReason
      && r.createdAt == o.createdAt
  {
    var r := WithStatus(o, newStatus, now);
    assert r.statusHistory[..|o.statusHistory|] == o.statusHistory;
  }

  /** Rejecting an order: 'rejected', the reason verbatim, one new last entry, all else kept. */
  lemma WithRejectionRecordsReason(o: Order, reason: string, now: Timestamp)
    ensures var r := WithRejection(o, reason, now);
      && r.status == Rejected
      && r.rejectionReason == Some(reason)
      && |r.statusHistory| == |o.statusHistory| + 1
      && r.statusHistory[..|o.statusHistory|] == o.statusHistory
      && r.statusHistory[|o.statusHistory|] == StatusEntry(Rejected, now, RejectionPrefix + reason)
      && HistoryConsistent(r)
      && r.id == o.id && r.orderNumber == o.orderNumber && r.customer == o.customer
      && r.items == o.items && r.total == o.total && r.paymentMethod == o.paymentMethod
      && r.isDelivery == o.isDelivery && r.createdAt == o.createdAt
  {
    var r := WithRejection(o, reason, now);
    assert r.statusHistory[..|o.statusHistory|] == o.statusHistory;
  }

  // ---------------------------------------------------------------- the orders collection

  function HasOrderId(id: string): Order -> bool {
    (o: Order) => o.id == id
  }

  /** `orders.findIndex(order => order.id === id)` */
  function OrderIndex(orders: seq<Order>, id: string): int {
    FirstIndex(orders, HasOrderId(id))
  }

  /** The collection after `updateOrderStatus`: only the first order with `id` changes. */
  function Advance(orders: seq<Order>, id: string, newStatus: string, now: Timestamp): (r: seq<Order>)
    ensures |r| == |orders|
    ensures forall j :: 0 <= j < |orders| ==> r[j].id == orders[j].id
    ensures forall j :: 0 <= j < |orders| && j != OrderIndex(orders, id) ==> r[j] == orders[j]
    ensures r == orders <==> OrderIndex(orders, id) == -1
  {
    var i := OrderIndex(orders, id);
    if i == -1 then orders
    else
      var r := orders[i := WithStatus(orders[i], newStatus, now)];
      assert |r[i].statusHistory| != |orders[i].statusHistory|;
      r
  }

  /** The collection after `rejectOrder`: only the first order with `id` changes. */
  function Reject(orders: seq<Order>, id: string, reason: string, now: Timestamp): (r: seq<Order>)
    ensures |r| == |orders|
    ensures forall j :: 0 <= j < |orders| ==> r[j].id == orders[j].id
    ensures forall j :: 0 <= j < |orders| && j != OrderIndex(orders, id) ==> r[j] == orders[j]
    ensures r == orders <==> OrderIndex(orders, id) == -1
  {
    var i := OrderIndex(orders, id);
    if i == -1 then orders
    else
      var r := orders[i := WithRejection(orders[i], reason, now)];
      assert |r[i].statusHistory| != |orders[i].statusHistory|;
      r
  }

  /**
   * Rejecting an existing order turns that order into `WithRejection` of it: 'rejected',
   * the reason stored, and one entry "Pedido recusado: " + reason appended to its history.
   */
  lemma RejectFound(orders: seq<Order>, id: string, reason: string, now: Timestamp)
    requires OrderIndex(orders, id) >= 0
    ensures var i := OrderIndex(orders, id);
      var r := Reject(orders, id, reason, now)[i];
      && r == WithRejection(orders[i], reason, now)
      && r.status == Rejected && r.rejectionReason == Some(reason)
      && r.statusHistory == orders[i].statusHistory + [StatusEntry(Rejected, now, RejectionPrefix + reason)]
  {
  }

  /** Advancing keeps ids, so the same order is found again. */
  lemma AdvanceKeepsIndex(orders: seq<Order>, id: string, newStatus: string, now: Timestamp)
    ensures OrderIndex(Advance(orders, id, newStatus, now), id) == OrderIndex(orders, id)
  {
    var r := Advance(orders, id, newStatus, now);
    assert forall j :: 0 <= j < |r| ==> HasOrderId(id)(r[j]) == HasOrderId(id)(orders[j]);
  }

  /** A sequence of `updateOrderStatus` calls on one order, each with its target and time. */
  function AdvanceAll(orders: seq<Order>, id: string, steps: seq<(string, Timestamp)>): seq<Order>
    decreases |steps|
  {
    if |steps| == 0 then orders
    else AdvanceAll(Advance(orders, id, steps[0].0, steps[0].1), id, steps[1..])
  }

  /** The entries those calls append, in order. */
  function StepEntries(steps: seq<(string, Timestamp)>): (es: seq<StatusEntry>)
    ensures |es| == |steps|
    ensures forall k :: 0 <= k < |steps| ==> es[k] == AdvanceEntry(steps[k].0, steps[k].1)
    decreases |steps|
  {
    if |steps| == 0 then [] else [AdvanceEntry(steps[0].0, steps[0].1)] + StepEntries(steps[1..])
  }

  /** Advancing an existing order changes that one order into `WithStatus` of it. */
  lemma AdvanceFound(orders: seq<Order>, id: string, newStatus: string, now: Timestamp)
    requires OrderIndex(orders, id) >= 0
    ensures var i := OrderIndex(orders, id);
      Advance(orders, id, newStatus, now)[i] == WithStatus(orders[i], newStatus, now)
  {
  }

  /** N advances keep the length, keep the found index and change no other order. */
  lemma {:induction false} AdvanceAllKeepsOthers(orders: seq<Order>, id: string,
                                                 steps: seq<(string, Timestamp)>)
    ensures var r := AdvanceAll(orders, id, steps);
      && |r| == |orders|
      && OrderIndex(r, id) == OrderIndex(orders, id)
      && forall j :: 0 <= j < |orders| && j != OrderIndex(orders, id) ==> r[j] == orders[j]
    decreases |steps|
  {
    if |steps| > 0 {
      AdvanceKeepsIndex(orders, id, steps[0].0, steps[0].1);
      AdvanceAllKeepsOthers(Advance(orders, id, steps[0].0, steps[0].1), id, steps[1..]);
    }
  }

  /**
   * After N advances of an existing order its history is the old history followed by the
   * N entries, in order.
   */
  lemma {:induction false} AdvanceAllAppendsHistory(orders: seq<Order>, id: string,
                                                    steps: seq<(string, Timestamp)>)
    requires OrderIndex(orders, id) >= 0
    ensures var i := OrderIndex(orders, id);
      |AdvanceAll(orders, id, steps)| == |orders| &&
      AdvanceAll(orders, id, steps)[i].statusHistory == orders[i].statusHistory + StepEntries(steps)
  {
    var i := OrderIndex(orders, id);
    AdvanceAllKeepsOthers(orders, id, steps);
    AdvanceAllIsStepwise(orders, id, steps);
    StepwiseAppendsHistory(orders[i], steps);
  }

  /** The same N advances applied to a single order. */
  function Stepwise(o: Order, steps: seq<(string, Timestamp)>): Order
    decreases |steps|
  {
    if |steps| == 0 then o else Stepwise(WithStatus(o, steps[0].0, steps[0].1), steps[1..])
  }

  /** On the collection, N advances act on the found order as `Stepwise` does. */
  lemma {:induction false} AdvanceAllIsStepwise(orders: seq<Order>, id: string,
                                                steps: seq<(string, Timestamp)>)
    requires OrderIndex(orders, id) >= 0
    ensures |AdvanceAll(orders, id, steps)| == |orders|
    ensures AdvanceAll(orders, id, steps)[OrderIndex(orders, id)]
            == Stepwise(orders[OrderIndex(orders, id)], steps)
    decreases |steps|
  {
    AdvanceAllKeepsOthers(orders, id, steps);
    if |steps| > 0 {
      AdvanceKeepsIndex(orders, id, steps[0].0, steps[0].1);
      AdvanceFound(orders, id, steps[0].0, steps[0].1);
      AdvanceAllIsStepwise(Advance(orders, id, steps[0].0, steps[0].1), id, steps[1..]);
    }
  }

  /** N advances of one order append exactly the N entries to its history. */
  lemma {:induction false} StepwiseAppendsHistory(o: Order, steps: seq<(string, Timestamp)>)
    ensures Stepwise(o, steps).statusHistory == o.statusHistory + StepEntries(steps)
    decreases |steps|
  {
    if |steps| == 0 {
      assert o.statusHistory + StepEntries(steps) == o.statusHistory;
    } else {
      var e := AdvanceEntry(steps[0].0, steps[0].1);
      StepwiseAppendsHistory(WithStatus(o, steps[0].0, steps[0].1), steps[1..]);
      assert StepEntries(steps) == [e] + StepEntries(steps[1..]);
      assert (o.statusHistory + [e]) + StepEntries(steps[1..])
          == o.statusHistory + ([e] + StepEntries(steps[1..]));
    }
  }

  /** After N > 0 advances the order's status is the last target and its history agrees. */
  lemma AdvanceAllEndsInLastTarget(orders: seq<Order>, id: string,
                                   steps: seq<(string, Timestamp)>)
    requires OrderIndex(orders, id) >= 0 && |steps| > 0
    ensures var i := OrderIndex(orders, id);
      var r := AdvanceAll(orders, id, steps);
      |r| == |orders| && r[i].status == steps[|steps| - 1].0 && HistoryConsistent(r[i])
  {
    var i := OrderIndex(orders, id);
    AdvanceAllAppendsHistory(orders, id, steps);
    var r := AdvanceAll(orders, id, steps);
    var h := r[i].statusHistory;
    assert h[|h| - 1] == StepEntries(steps)[|steps| - 1];
    AdvanceAllLastStatus(orders, id, steps);
  }

  /** The status after N > 0 advances is the last target. */
  lemma {:induction false} AdvanceAllLastStatus(orders: seq<Order>, id: string,
                                                steps: seq<(string, Timestamp)>)
    requires OrderIndex(orders, id) >= 0 && |steps| > 0
    ensures |AdvanceAll(orders, id, steps)| == |orders|
    ensures AdvanceAll(orders, id, steps)[OrderIndex(orders, id)].status == steps[|steps| - 1].0
    decreases |steps|
  {
    var next := Advance(orders, id, steps[0].0, steps[0].1);
    AdvanceKeepsIndex(orders, id, steps[0].0, steps[0].1);
    AdvanceAllKeepsOthers(orders, id, steps);
    if |steps| == 1 {
      AdvanceFound(orders, id, steps[0].0, steps[0].1);
      assert AdvanceAll(orders, id, steps) == AdvanceAll(next, id, []) == next;
    } else {
      AdvanceAllLastStatus(next, id, steps[1..]);
      assert steps[1..][|steps[1..]| - 1] == steps[|steps| - 1];
    }
  }

  /**
   * A pending order with its initial entry, confirmed and then made ready, ends 'ready'
   * with the three entries pending, confirmed, ready, each described by its label.
   */
  lemma ConfirmThenReadyScenario(o: Order, t0: Timestamp, t1: Timestamp, t2: Timestamp)
    requires o.status == Pending && o.statusHistory == [AdvanceEntry(Pending, t0)]
    ensures var r := AdvanceAll([o], o.id, [(Confirmed, t1), (Ready, t2)]);
      && |r| == 1 && r[0].status == Ready
      && r[0].statusHistory == [StatusEntry(Pending, t0, "Aguardando Confirmação"),
                                StatusEntry(Confirmed, t1, "Em Preparação"),
                                StatusEntry(Ready, t2, "Pronto")]
  {
    assert OrderIndex([o], o.id) == 0 by {
      assert HasOrderId(o.id)([o][0]);
    }
    var steps := [(Confirmed, t1), (Ready, t2)];
    AdvanceAllAppendsHistory([o], o.id, steps);
    AdvanceAllEndsInLastTarget([o], o.id, steps);
    assert StepEntries(steps) == [AdvanceEntry(Confirmed, t1), AdvanceEntry(Ready, t2)];
  }

  /** The update performs transitions the order card never offers, e.g. delivered back to pending. */
  lemma AdvanceSkipsLegalityCheck(o: Order, now: Timestamp)
    requires o.status == Delivered
    ensures Pending !in OfferedTargets(o.status)
    ensures Advance([o], o.id, Pending, now) == [WithStatus(o, Pending, now)]
    ensures Reject([o], o.id, "", now)[0].status == Rejected
  {
    assert OrderIndex([o], o.id) == 0 by {
      assert HasOrderId(o.id)([o][0]);
    }
  }

  // ---------------------------------------------------------------- store operations

  /** The store after `updateOrderStatus`: only 'orders' may change, and only if the id is found. */
  function AfterUpdateOrderStatus(entries: map<string, Value>, orderId: string, newStatus: string,
                                  now: Timestamp): (r: map<string, Value>)
    requires WellTyped(entries)
    ensures WellTyped(r)
    ensures r - {OrdersKey} == entries - {OrdersKey}
    ensures OrdersOf(r) == Advance(OrdersOf(entries), orderId, newStatus, now)
    ensures r == entries <==> OrderIndex(OrdersOf(entries), orderId) == -1
  {
    var orders := OrdersOf(entries);
    if OrderIndex(orders, orderId) == -1 then entries
    else entries[OrdersKey := OrderList(Advance(orders, orderId, newStatus, now))]
  }

  /** The store after `rejectOrder`: only 'orders' may change, and only if the id is found. */
  function AfterRejectOrder(entries: map<string, Value>, orderId: string, reason: string,
                            now: Timestamp): (r: map<string, Value>)
    requires WellTyped(entries)
    ensures WellTyped(r)
    ensures r - {OrdersKey} == entries - {OrdersKey}
    ensures OrdersOf(r) == Reject(OrdersOf(entries), orderId, reason, now)
    ensures r == entries <==> OrderIndex(OrdersOf(entries), orderId) == -1
  {
    var orders := OrdersOf(entries);
    if OrderIndex(orders, orderId) == -1 then entries
    else entries[OrdersKey := OrderList(Reject(orders, orderId, reason, now))]
  }

  /** `updateOrderStatus(orderId, newStatus)`, with the clock reading passed in as `now`. */
  /** In the store, the rejected order records the reason, and the other orders are untouched. */
  lemma RejectOrderRecordsReason(entries: map<string, Value>, orderId: string, reason: string, now: Timestamp)
    requires WellTyped(entries)
    requires OrderIndex(OrdersOf(entries), orderId) >= 0
    ensures var before := OrdersOf(entries);
      var after := OrdersOf(AfterRejectOrder(entries, orderId, reason, now));
      var i := OrderIndex(before, orderId);
      && |after| == |before|
      && after[i].status == Rejected && after[i].rejectionReason == Some(reason)
      && after[i].statusHistory == before[i].statusHistory + [StatusEntry(Rejected, now, RejectionPrefix + reason)]
      && forall j :: 0 <= j < |before| && j != i ==> after[j] == before[j]
  {
    RejectFound(OrdersOf(entries), orderId, reason, now);
  }

  method UpdateOrderStatus(store: Store, orderId: string, newStatus: string, now: Timestamp)
    requires store.Valid()
    modifies store
    ensures store.Valid()
    ensures store.entries == AfterUpdateOrderStatus(old(store.entries), orderId, newStatus, now)
  {
    var orders := OrdersOf(store.entries);
    var i := FindIndex(orders, HasOrderId(orderId));
    if i >= 0 {
      orders := orders[i := WithStatus(orders[i], newStatus, now)];
      store.Set(OrdersKey, OrderList(orders));
    }
  }

  /** `rejectOrder(orderId, reason)`, with the clock reading passed in as `now`. */
  method RejectOrder(store: Store, orderId: string, reason: string, now: Timestamp)
    requires store.Valid()
    modifies store
    ensures store.Valid()
    ensures store.entries == AfterRejectOrder(old(store.entries), orderId, reason, now)
  {
    var orders := OrdersOf(store.entries);
    var i := FindIndex(orders, HasOrderId(orderId));
    if i >= 0 {
      orders := orders[i := WithRejection(orders[i], reason, now)];
      store.Set(OrdersKey, OrderList(orders));
    }
  }

  /**
   * `showRejectModal(orderId)`: `answer` is what the prompt returned (`None` when cancelled).
   * An empty or cancelled answer rejects nothing.
   */
  method ShowRejectModal(store: Store, orderId: string, answer: Option<string>, now: Timestamp)
    requires store.Valid()
    modifies store
    ensures store.Valid()
    ensures answer == None || answer == Some("") ==> store.entries == old(store.entries)
    ensures answer != None && answer != Some("") ==>
      store.entries == AfterRejectOrder(old(store.entries), orderId, answer.value, now)
  {
    if answer.Some? && answer.value != "" {
      RejectOrder(store, orderId, answer.value, now);
    }
  }

  // ---------------------------------------------------------------- listing order

  /** Newest first: creation times never increase along the sequence. */
  predicate NewestFirst(orders: seq<Order>) {
    forall i, j :: 0 <= i < j < |orders| ==> orders[i].createdAt >= orders[j].createdAt
  }

  /** Dropping the newest order keeps the rest newest first. */
  lemma NewestFirstTail(sorted: seq<Order>)
    requires |sorted| > 0 && NewestFirst(sorted)
    ensures NewestFirst(sorted[1..])
    ensures forall j :: 0 <= j < |sorted[1..]| ==> sorted[1..][j].createdAt <= sorted[0].createdAt
  {
    forall i, j | 0 <= i < j < |sorted[1..]|
      ensures sorted[1..][i].createdAt >= sorted[1..][j].createdAt
    {
      assert sorted[1..][i] == sorted[i + 1] && sorted[1..][j] == sorted[j + 1];
    }
    forall j | 0 <= j < |sorted[1..]| ensures sorted[1..][j].createdAt <= sorted[0].createdAt {
      assert sorted[1..][j] == sorted[j + 1];
    }
  }

  /** Putting an order no older than every other one in front keeps newest first. */
  lemma NewestFirstCons(x: Order, s: seq<Order>)
    requires NewestFirst(s)
    requires forall j :: 0 <= j < |s| ==> s[j].createdAt <= x.createdAt
    ensures NewestFirst([x] + s)
  {
    var r := [x] + s;
    forall i, j | 0 <= i < j < |r| ensures r[i].createdAt >= r[j].createdAt {
      assert r[j] == s[j - 1];
      if i > 0 {
        assert r[i] == s[i - 1];
      }
    }
  }

  /** Inserts `o` before the first order created no later than it. */
  function InsertByDate(o: Order, sorted: seq<Order>): (r: seq<Order>)
    requires NewestFirst(sorted)
    ensures multiset(r) == multiset(sorted) + multiset{o}
    ensures NewestFirst(r)
    decreases |sorted|
  {
    if |sorted| == 0 || sorted[0].createdAt <= o.createdAt then
      NewestFirstCons(o, sorted);
      [o] + sorted
    else
      NewestFirstTail(sorted);
      var rest := InsertByDate(o, sorted[1..]);
      assert sorted == [sorted[0]] + sorted[1..];
      assert forall j :: 0 <= j < |rest| ==> rest[j].createdAt <= sorted[0].createdAt by {
        forall j | 0 <= j < |rest| ensures rest[j].createdAt <= sorted[0].createdAt {
          assert rest[j] in multiset(rest);
          if rest[j] != o {
            assert rest[j] in multiset(sorted[1..]);
            var k :| 0 <= k < |sorted[1..]| && sorted[1..][k] == rest[j];
          }
        }
      }
      NewestFirstCons(sorted[0], rest);
      [sorted[0]] + rest
  }

  /** The order `loadOrders` lists: sorted by creation time, newest first, as a permutation. */
  function SortNewestFirst(orders: seq<Order>): (r: seq<Order>)
    ensures multiset(r) == multiset(orders)
    ensures NewestFirst(r)
    decreases |orders|
  {
    if |orders| == 0 then []
    else
      assert orders == [orders[0]] + orders[1..];
      InsertByDate(orders[0], SortNewestFirst(orders[1..]))
  }
}
