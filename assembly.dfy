/** Assembling the record of one document, as both entry points do: the line
    items are extracted first, their amounts are summed, and the sum is
    handed to the header parser as the total. */
module Assembly {
  import opened Money
  import opened LineItems
  import opened Header

  /** Extract the items, sum them, and parse the header with that sum. */
  method AssembleInvoice(rawText: string) returns (invoiceData: map<string, string>, lineItems: seq<LineItem>)
    ensures lineItems == LineItemsOf(rawText)
    ensures invoiceData == HeaderOf(rawText, TotalCents(lineItems))
    ensures invoiceData[TOTAL_AMOUNT_KEY] == FormatTotal(TotalCents(lineItems))
  {
    lineItems := ExtractLineItems(rawText);
    var calculatedTotal := TotalCents(lineItems);
    invoiceData := ParseUniversalInvoice(rawText, calculatedTotal);
  }

  /** The total field of a header built from a list of items is `Not Found`
      exactly when every amount is zero, an empty list included; otherwise it
      reads back as the sum of the amounts, and bounds each of them. */
  lemma TotalAmountField(text: string, items: seq<LineItem>)
    ensures var v := HeaderOf(text, TotalCents(items))[TOTAL_AMOUNT_KEY];
      (v == NOT_FOUND <==> forall i | 0 <= i < |items| :: items[i].amount == 0)
      && (v != NOT_FOUND ==>
            AmountShape(v) && ParseAmount(v) == TotalCents(items)
            && forall i | 0 <= i < |items| :: items[i].amount <= ParseAmount(v))
  {
    var t := TotalCents(items);
    assert HeaderOf(text, t)[TOTAL_AMOUNT_KEY] == FormatTotal(t);
    TotalCentsZeroIff(items);
    forall i | 0 <= i < |items| ensures items[i].amount <= t {
      TotalCentsBoundsItems(items, i);
    }
  }
}
