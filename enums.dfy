/** The string whitelists of the order handlers and the order-status labels
    (enums/order.js). */
module Enums {
  import opened Schema

  /** `Object.values(OrderStatus).includes(s)`: each key of the table is its own value. */
  predicate IsOrderStatus(s: string) {
    s == "PENDING" || s == "COMPLETED" || s == "CANCELLED"
  }

  /** `Object.values(PaymentStatus).includes(s)`: only the paid and the unpaid token. */
  predicate IsPaymentStatus(s: string) {
    s == Paid || s == Unpaid
  }

  /** `Object.values(PaymentMethod).includes(s)`. */
  predicate IsPaymentMethod(s: string) {
    s == "PROMPTPAY" || s == "QR" || s == "CASH"
  }

  /** `StatusLabels[status]`: the Thai label shown for an order status. */
  function StatusLabel(status: OrderStatus): (shown: string)
    ensures shown == Unpaid <==> status == OrderStatus.Pending
    ensures shown == Paid <==> status == OrderStatus.Completed
    ensures IsPaymentStatus(shown) <==> status != OrderStatus.Cancelled
  {
    match status
    case Pending => Unpaid
    case Completed => Paid
    case Cancelled => "ยกเลิก"
  }

  /** The order-status whitelist accepts exactly the names of the stored order statuses. */
  lemma OrderStatusNames(s: string)
    ensures IsOrderStatus(s) <==> ParseOrderStatus(s).Some?
    ensures forall t: OrderStatus :: IsOrderStatus(t.Name())
  {
    if IsOrderStatus(s) {
      assert ParseOrderStatus(s).Some?;
    }
  }

  /** The method the checkout stores, QR_CODE, is not in the PaymentMethod
      table, and the "order cancelled" payment token the cashier may set is
      not in the PaymentStatus table. */
  lemma WhitelistsDisagree()
    ensures !IsPaymentMethod(QrCode)
    ensures !IsPaymentStatus(OrderCancelledThai)
  {
    assert QrCode[0] == 'Q' && QrCode[1] == 'R' && QrCode[2] == '_';
    assert OrderCancelledThai[0] == 'ย' && OrderCancelledThai[1] != Unpaid[1] && OrderCancelledThai[0] != Paid[0];
  }
}
