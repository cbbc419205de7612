/** `ProductsPage`: the till. Each product button adds one receipt line and
    the line's price to the running total; the price comes from a fixed table
    of four names. The labels' currency formatting is outside this model. */
module ProductsPage {
  import opened Catalog

  /** The fixed prices, as a map from product name to price. */
  const PriceTable: map<string, real> := map["Apple" := 0.99, "Banana" := 0.49, "Orange" := 0.79, "Watermelon" := 3.00]

  /** `GetItemPrice`: the `switch` over the four names, 0 for any other name. */
  function GetItemPrice(itemName: string): (price: real)
    ensures price >= 0.0
  {
    match itemName
    case "Apple" => 0.99
    case "Banana" => 0.49
    case "Orange" => 0.79
    case "Watermelon" => 3.00
    case _ => 0.0
  }

  /** The `switch` agrees with the price table, and every name outside it is free. */
  lemma GetItemPriceIsTable(itemName: string)
    ensures itemName in PriceTable ==> GetItemPrice(itemName) == PriceTable[itemName]
    ensures itemName !in PriceTable ==> GetItemPrice(itemName) == 0.0
  {
  }

  /** The button of a stored product is labelled with its name, so the
      product's own `Price` plays no part: a product outside the table adds
      nothing to the total. */
  lemma StoredPriceIgnored(t: Till, p: Product)
    requires p.name !in PriceTable
    ensures OnItemClicked(t, p.name).totalAmount == t.totalAmount
    ensures OnItemClicked(t, p.name).receipt[|t.receipt|] == ReceiptLine(p.name, 0.0)
  {
    GetItemPriceIsTable(p.name);
  }

  /** One line of the receipt list: the name and the price shown. */
  datatype ReceiptLine = ReceiptLine(itemName: string, price: real)

  /** The page's `totalAmount` and the lines of `ReceiptList`. */
  datatype Till = Till(totalAmount: real, receipt: seq<ReceiptLine>)

  const EmptyTill: Till := Till(0.0, [])

  /** `OnItemClicked`: the button's text is the item name; the priced line is
      added and the price added to the total. */
  function OnItemClicked(t: Till, itemName: string): (r: Till)
    ensures r.receipt == t.receipt + [ReceiptLine(itemName, GetItemPrice(itemName))]
    ensures r.totalAmount == t.totalAmount + GetItemPrice(itemName)
  {
    Till(t.totalAmount + GetItemPrice(itemName), t.receipt + [ReceiptLine(itemName, GetItemPrice(itemName))])
  }

  /** A sequence of clicks, in order. */
  function Clicks(t: Till, names: seq<string>): Till
  {
    if |names| == 0 then t else OnItemClicked(Clicks(t, names[..|names| - 1]), names[|names| - 1])
  }

  /** The sum of the table prices of `names`. */
  function SumPrices(names: seq<string>): real
  {
    if |names| == 0 then 0.0 else SumPrices(names[..|names| - 1]) + GetItemPrice(names[|names| - 1])
  }

  /** After any clicks the total is the starting total plus the sum of the
      clicked names' prices, and the receipt has one line per click, in click
      order, each with that name's price. */
  lemma {:induction false} ClicksEffect(t: Till, names: seq<string>)
    ensures Clicks(t, names).totalAmount == t.totalAmount + SumPrices(names)
    ensures |Clicks(t, names).receipt| == |t.receipt| + |names|
    ensures Clicks(t, names).receipt[..|t.receipt|] == t.receipt
    ensures forall k :: 0 <= k < |names| ==>
              Clicks(t, names).receipt[|t.receipt| + k] == ReceiptLine(names[k], GetItemPrice(names[k]))
  {
    if |names| > 0 {
      var init := names[..|names| - 1];
      ClicksEffect(t, init);
      var before := Clicks(t, init);
      assert before.receipt[..|t.receipt|] == t.receipt;
      var after := Clicks(t, names);
      assert after.receipt == before.receipt + [ReceiptLine(names[|names| - 1], GetItemPrice(names[|names| - 1]))];
      forall k | 0 <= k < |names|
        ensures after.receipt[|t.receipt| + k] == ReceiptLine(names[k], GetItemPrice(names[k]))
      {
        if k < |names| - 1 {
          assert init[k] == names[k];
        }
      }
    }
  }

  /** The sum of prices is never negative. */
  lemma {:induction false} SumPricesNonNegative(names: seq<string>)
    ensures SumPrices(names) >= 0.0
  {
    if |names| > 0 {
      SumPricesNonNegative(names[..|names| - 1]);
    }
  }

  /** Starting from an empty till, the total is the receipt's sum and never
      goes down with more clicks. */
  lemma TotalNeverDecreases(names: seq<string>, more: seq<string>)
    ensures Clicks(EmptyTill, names).totalAmount == SumPrices(names)
    ensures Clicks(EmptyTill, names + more).totalAmount >= Clicks(EmptyTill, names).totalAmount
  {
    ClicksEffect(EmptyTill, names);
    ClicksEffect(Clicks(EmptyTill, names), more);
    ClicksSplit(EmptyTill, names, more);
    SumPricesNonNegative(more);
  }

  /** Clicking `a` and then `b` is clicking `a + b`. */
  lemma {:induction false} ClicksSplit(t: Till, a: seq<string>, b: seq<string>)
    ensures Clicks(t, a + b) == Clicks(Clicks(t, a), b)
    decreases |b|
  {
    if |b| == 0 {
      assert a + b == a;
    } else {
      assert (a + b)[..|a + b| - 1] == a + b[..|b| - 1];
      ClicksSplit(t, a, b[..|b| - 1]);
    }
  }
}
