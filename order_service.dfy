/**
 * `OrderService`: a map from id to `Order` and the next id to hand out.
 * Packing and paying each move an order to IN_PROGRESS, and deliver it when
 * `checkStatus` then holds. `synchronized` is dropped: the model is
 * sequential.
 */
module OrderServices {
  import opened JavaStrings
  import opened Orders

  /** A service call on an existing order: `setPacked`, or `updatePaymentInfo` with a (possibly null) payment. */
  datatype Event = Pack | Pay(paymentInfo: Option<PaymentInfo>)

  /** One service call on an order: the setter, then delivery when `checkStatus` holds. */
  function AfterEvent(o: OrderState, e: Event): OrderState {
    var updated := match e
      case Pack => WithPacked(o, true)
      case Pay(p) => WithPaymentInfo(o, p);
    if ReadyToDeliver(updated) then updated.(status := Delivered) else updated
  }

  /** A sequence of service calls on one order, in order. */
  function AfterEvents(o: OrderState, es: seq<Event>): OrderState
    decreases |es|
  {
    if es == [] then o else AfterEvents(AfterEvent(o, es[0]), es[1..])
  }

  /** The payment an order holds after `es`, starting from `p`: that of the last payment call, if any. */
  function LastPayment(p: Option<PaymentInfo>, es: seq<Event>): Option<PaymentInfo>
    decreases |es|
  {
    if es == [] then p else LastPayment(if es[0].Pay? then es[0].paymentInfo else p, es[1..])
  }

  /**
   * What any sequence of service calls does to an order: id and items never
   * change, it is packed once any call packed it, it holds the last payment,
   * and after at least one call it is DELIVERED exactly when `checkStatus`
   * holds and IN_PROGRESS otherwise.
   */
  lemma {:induction false} EventsEffect(o: OrderState, es: seq<Event>)
    ensures AfterEvents(o, es).id == o.id && AfterEvents(o, es).items == o.items
    ensures AfterEvents(o, es).isPacked == (o.isPacked || Pack in es)
    ensures AfterEvents(o, es).paymentInfo == LastPayment(o.paymentInfo, es)
    ensures AfterEvents(o, es).status ==
            if es == [] then o.status
            else if ReadyToDeliver(AfterEvents(o, es)) then Delivered else InProgress
    decreases |es|
  {
    if es != [] {
      EventsEffect(AfterEvent(o, es[0]), es[1..]);
      assert Pack in es <==> es[0] == Pack || Pack in es[1..] by {
        assert es == [es[0]] + es[1..];
      }
    }
  }

  /**
   * A new order is delivered after a sequence of service calls exactly when
   * it has items, was packed at least once, and the last payment call
   * carried a payment: packing and paying in either order, packing any
   * number of times.
   */
  lemma DeliveredIff(items: Option<seq<Item>>, id: int, es: seq<Event>)
    ensures AfterEvents(NewOrder(items).(id := Some(id)), es).status == Delivered <==>
            items.Some? && |items.value| > 0 && Pack in es && LastPayment(None, es).Some?
  {
    EventsEffect(NewOrder(items).(id := Some(id)), es);
  }

  /** An order with an empty item list is never delivered, whatever the calls. */
  lemma EmptyOrderNeverDelivered(id: int, es: seq<Event>)
    ensures AfterEvents(NewOrder(Some([])).(id := Some(id)), es).status != Delivered
  {
    DeliveredIff(Some([]), id, es);
  }

  /**
   * Once a new order has been delivered by service calls, packing again or
   * paying again with a payment keeps it delivered; paying with a null
   * payment moves it back to IN_PROGRESS.
   */
  lemma DeliveredStaysDelivered(items: Option<seq<Item>>, id: int, es: seq<Event>, p: PaymentInfo)
    requires AfterEvents(NewOrder(items).(id := Some(id)), es).status == Delivered
    ensures AfterEvent(AfterEvents(NewOrder(items).(id := Some(id)), es), Pack).status == Delivered
    ensures AfterEvent(AfterEvents(NewOrder(items).(id := Some(id)), es), Pay(Some(p))).status == Delivered
    ensures AfterEvent(AfterEvents(NewOrder(items).(id := Some(id)), es), Pay(None)).status == InProgress
  {
    EventsEffect(NewOrder(items).(id := Some(id)), es);
  }

  /** The service tests' scenarios on an order with two items. */
  lemma TestScenarios(id: int, p: PaymentInfo)
    ensures var o := NewOrder(Some([Item(0), Item(1)])).(id := Some(id));
      && AfterEvents(o, [Pack, Pay(Some(p))]).status == Delivered
      && AfterEvents(o, [Pack, Pack, Pack, Pay(Some(p))]).status == Delivered
      && AfterEvents(o, [Pay(Some(p))]).status != Delivered
      && AfterEvents(o, [Pack]).status != Delivered
      && AfterEvents(o, [Pack, Pack]).status != Delivered
  {
    var items := Some([Item(0), Item(1)]);
    assert [Pack, Pay(Some(p))][1..] == [Pay(Some(p))];
    assert [Pay(Some(p))][1..] == [];
    assert LastPayment(None, [Pay(Some(p))]) == Some(p);
    DeliveredIff(items, id, [Pack, Pay(Some(p))]);
    DeliveredIff(items, id, [Pack, Pack, Pack, Pay(Some(p))]);
    DeliveredIff(items, id, [Pay(Some(p))]);
    DeliveredIff(items, id, [Pack]);
    DeliveredIff(items, id, [Pack, Pack]);
  }

  class OrderService {
    var currentOrders: map<int, Order>
    var nextId: int

    /** Ids 0 .. nextId-1 are registered, each under an order that carries its own id, no order under two ids. */
    ghost predicate Valid()
      reads this, currentOrders.Values
    {
      && nextId >= 0
      && (forall id :: id in currentOrders <==> 0 <= id < nextId)
      && (forall id :: id in currentOrders ==> currentOrders[id].id == Some(id))
      && (forall i, j :: i in currentOrders && j in currentOrders && i != j ==> currentOrders[i] != currentOrders[j])
    }

    constructor ()
      ensures Valid() && currentOrders == map[] && nextId == 0
    {
      currentOrders := map[];
      nextId := 0;
    }

    /** `nextId()`: the current counter, which then goes up by one. */
    method NextId() returns (id: int)
      modifies this`nextId
      ensures id == old(nextId) && nextId == old(nextId) + 1
    {
      id := nextId;
      nextId := nextId + 1;
    }

    /** `createOrder`: registers a new order under the next id, which it returns; earlier orders stay as they were. */
    method CreateOrder(items: Option<seq<Item>>) returns (id: int)
      requires Valid()
      modifies this
      ensures Valid()
      ensures id == old(nextId) && nextId == old(nextId) + 1
      ensures currentOrders.Keys == old(currentOrders.Keys) + {id}
      ensures fresh(currentOrders[id]) && currentOrders[id].State() == NewOrder(items).(id := Some(id))
      ensures forall k :: k in old(currentOrders) ==> currentOrders[k] == old(currentOrders[k])
    {
      id := NextId();
      var order := new Order(items);
      order.SetId(Some(id));
      currentOrders := currentOrders[id := order];
    }

    /** `updatePaymentInfo`: the order takes the payment call; no other order and not the counter change. */
    method UpdatePaymentInfo(orderId: int, paymentInfo: Option<PaymentInfo>)
      requires Valid() && orderId in currentOrders
      modifies currentOrders[orderId]
      ensures Valid()
      ensures currentOrders[orderId].State() == AfterEvent(old(currentOrders[orderId].State()), Pay(paymentInfo))
      ensures forall k :: k in currentOrders && k != orderId ==> currentOrders[k].State() == old(currentOrders[k].State())
    {
      currentOrders[orderId].SetPaymentInfo(paymentInfo);
      if currentOrders[orderId].CheckStatus() {
        Deliver(currentOrders[orderId]);
      }
    }

    /** `setPacked`: the order takes the packing call; no other order and not the counter change. */
    method SetPacked(orderId: int)
      requires Valid() && orderId in currentOrders
      modifies currentOrders[orderId]
      ensures Valid()
      ensures currentOrders[orderId].State() == AfterEvent(old(currentOrders[orderId].State()), Pack)
      ensures forall k :: k in currentOrders && k != orderId ==> currentOrders[k].State() == old(currentOrders[k].State())
    {
      currentOrders[orderId].SetPacked(true);
      if currentOrders[orderId].CheckStatus() {
        Deliver(currentOrders[orderId]);
      }
    }

    /** `deliver`: the order registered under the given order's id becomes DELIVERED. */
    method Deliver(order: Order)
      requires Valid() && order.id.Some? && order.id.value in currentOrders
      modifies currentOrders[order.id.value]
      ensures Valid()
      ensures currentOrders[old(order.id.value)].State() == old(currentOrders[order.id.value].State()).(status := Delivered)
    {
      var id := order.GetId();
      currentOrders[id.value].SetStatus(Delivered);
    }

    /** `isDelivered`: whether the order's status is DELIVERED. */
    method IsDelivered(orderId: int) returns (delivered: bool)
      requires Valid() && orderId in currentOrders
      ensures delivered <==> currentOrders[orderId].status == Delivered
    {
      delivered := currentOrders[orderId].status == Delivered;
    }
  }
}
