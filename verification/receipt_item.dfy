/** `ReceiptItem`: one line of a receipt, with a derived total and
    property-changed notifications raised by its quantity setter. */
module ReceiptItems {
  import opened Wrappers

  datatype ReceiptItem = ReceiptItem(name: string, quantity: real, unitPrice: real) {

    /** `TotalPrice` is computed on every read and never stored, so it cannot
        drift from the quantity and the unit price. */
    function TotalPrice(): real
    {
      quantity * unitPrice
    }
  }

  /** The `Quantity` setter: stores the value and raises `Quantity` and then
      `TotalPrice`, whether or not the value changed. */
  function SetQuantity(item: ReceiptItem, q: real): (r: (ReceiptItem, Notifications))
    ensures r.0.quantity == q
    ensures r.0.name == item.name && r.0.unitPrice == item.unitPrice
    ensures r.0.TotalPrice() == q * item.unitPrice
    ensures r.1 == ["Quantity", "TotalPrice"]
  {
    (item.(quantity := q), ["Quantity", "TotalPrice"])
  }

  /** Sets the quantity to each value of `qs` in turn, collecting the notifications. */
  function SetQuantities(item: ReceiptItem, qs: seq<real>): (ReceiptItem, Notifications)
    decreases |qs|
  {
    if |qs| == 0 then (item, [])
    else
      var (next, n) := SetQuantity(item, qs[0]);
      var (last, rest) := SetQuantities(next, qs[1..]);
      (last, n + rest)
  }

  /** After any run of quantity assignments the item keeps its name and unit
      price, holds the last quantity assigned, its total is that quantity
      times the unit price, and exactly two notifications were raised per
      assignment, `Quantity` before `TotalPrice`. */
  lemma {:induction false} SetQuantitiesEffect(item: ReceiptItem, qs: seq<real>)
    requires |qs| > 0
    ensures SetQuantities(item, qs).0 == item.(quantity := qs[|qs| - 1])
    ensures SetQuantities(item, qs).0.TotalPrice() == qs[|qs| - 1] * item.unitPrice
    ensures |SetQuantities(item, qs).1| == 2 * |qs|
    ensures forall k :: 0 <= k < |qs| ==>
              SetQuantities(item, qs).1[2 * k] == "Quantity" && SetQuantities(item, qs).1[2 * k + 1] == "TotalPrice"
    decreases |qs|
  {
    var next := item.(quantity := qs[0]);
    if |qs| > 1 {
      SetQuantitiesEffect(next, qs[1..]);
      var rest := SetQuantities(next, qs[1..]).1;
      var all := SetQuantities(item, qs).1;
      assert all == ["Quantity", "TotalPrice"] + rest;
      forall k | 0 <= k < |qs|
        ensures all[2 * k] == "Quantity" && all[2 * k + 1] == "TotalPrice"
      {
        if k > 0 {
          assert all[2 * k] == rest[2 * (k - 1)];
          assert all[2 * k + 1] == rest[2 * (k - 1) + 1];
        }
      }
    }
  }
}
