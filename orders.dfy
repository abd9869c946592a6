/**
 * `Order`: an order's items, payment, packing flag and delivery status,
 * updated in place by its setters. Java `null` is `None`.
 */
module Orders {
  import opened JavaStrings

  datatype Status = New | InProgress | Delivered

  /** `Item` and `PaymentInfo` are not part of this model; each is an opaque token here. */
  datatype Item = Item(tag: nat)
  datatype PaymentInfo = PaymentInfo(tag: nat)

  /** The fields of an order, as one value. */
  datatype OrderState = OrderState(
    id: Option<int>,
    items: Option<seq<Item>>,
    paymentInfo: Option<PaymentInfo>,
    isPacked: bool,
    status: Status)

  /** A freshly constructed order: no id, no payment, not packed, status NEW. */
  function NewOrder(items: Option<seq<Item>>): OrderState {
    OrderState(None, items, None, false, New)
  }

  /** `checkStatus`: there are items, the payment is known, and the order is packed. */
  predicate ReadyToDeliver(o: OrderState) {
    o.items.Some? && |o.items.value| > 0 && o.paymentInfo.Some? && o.isPacked
  }

  /** `setPaymentInfo` on the fields. */
  function WithPaymentInfo(o: OrderState, paymentInfo: Option<PaymentInfo>): OrderState {
    o.(paymentInfo := paymentInfo, status := InProgress)
  }

  /** `setPacked` on the fields. */
  function WithPacked(o: OrderState, packed: bool): OrderState {
    o.(isPacked := packed, status := InProgress)
  }

  class Order {
    var id: Option<int>
    var items: Option<seq<Item>>
    var paymentInfo: Option<PaymentInfo>
    var isPacked: bool
    var status: Status

    function State(): OrderState
      reads this
    {
      OrderState(id, items, paymentInfo, isPacked, status)
    }

    constructor (items: Option<seq<Item>>)
      ensures State() == NewOrder(items)
    {
      this.id := None;
      this.items := items;
      this.paymentInfo := None;
      this.isPacked := false;
      this.status := New;
    }

    /** `checkStatus`: true exactly when the order's fields are ready for delivery. */
    function CheckStatus(): (ready: bool)
      reads this
      ensures ready <==> ReadyToDeliver(State())
    {
      items.Some? && |items.value| > 0 && paymentInfo.Some? && isPacked
    }

    /** `getId`: the id of the order's fields. */
    function GetId(): (r: Option<int>)
      reads this
      ensures r == State().id
    {
      id
    }

    /** `setId`: only the id changes, and `getId` then answers it. */
    method SetId(id: Option<int>)
      modifies this`id
      ensures GetId() == id
      ensures State() == old(State()).(id := id)
    {
      this.id := id;
    }

    /** `setPaymentInfo`: stores the payment and moves to IN_PROGRESS; items, packing and id stay. */
    method SetPaymentInfo(paymentInfo: Option<PaymentInfo>)
      modifies this`paymentInfo, this`status
      ensures State() == WithPaymentInfo(old(State()), paymentInfo)
    {
      this.paymentInfo := paymentInfo;
      this.status := InProgress;
    }

    /** `setPacked`: stores the flag and moves to IN_PROGRESS; items, payment and id stay. */
    method SetPacked(packed: bool)
      modifies this`isPacked, this`status
      ensures State() == WithPacked(old(State()), packed)
    {
      this.isPacked := packed;
      this.status := InProgress;
    }

    /** `setStatus`: only the status changes. */
    method SetStatus(status: Status)
      modifies this`status
      ensures State() == old(State()).(status := status)
    {
      this.status := status;
    }
  }
}
