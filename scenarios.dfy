/** Worked inputs: the line-item, normalization and header behaviour on
    concrete invoice text. Each scenario takes its text as a parameter that
    agrees character by character with the constant it names. */
module Scenarios {
  import opened Chars
  import opened Money
  import opened Whitespace
  import opened LineItems
  import opened Patterns
  import opened Header

  /** An item line: quantity 3, a two-word description, a grouped amount. */
  const WIDGET_LINE := "3 Widget Assembly   1,234.56"

  predicate IsWidgetLine(t: string) {
    |t| == |WIDGET_LINE| && forall i | 0 <= i < |t| :: t[i] == WIDGET_LINE[i]
  }

  lemma WidgetLineShape(t: string)
    requires IsWidgetLine(t)
    ensures '\n' !in t
    ensures LineItemShape(t, 0, Cut(1, 2, 17, 20, 25))
  {
  }

  lemma WidgetDescriptionText(t: string)
    requires IsWidgetLine(t)
    ensures t[2..17] == "Widget Assembly"
  {
    var d := t[2..17];
    forall i | 0 <= i < |d| ensures d[i] == "Widget Assembly"[i] {
      assert d[i] == t[i + 2];
    }
  }

  lemma AssemblyIsNormalized()
    ensures IsNormalized("Widget Assembly")
  {
  }

  lemma WidgetDescription(t: string)
    requires IsWidgetLine(t)
    ensures Normalize(t[2..17]) == "Widget Assembly"
  {
    WidgetDescriptionText(t);
    AssemblyIsNormalized();
    NormalizeFixesNormalized("Widget Assembly");
  }

  lemma WidgetAmountShape(t: string)
    requires IsWidgetLine(t)
    ensures AmountShape(t[20..28])
    ensures forall i | 0 <= i < 8 :: t[20..28][i] == "1,234.56"[i]
  {
    var a := t[20..28];
    forall i | 0 <= i < 8 ensures a[i] == "1,234.56"[i] { assert a[i] == t[i + 20]; }
  }

  lemma WidgetAmount(t: string)
    requires IsWidgetLine(t)
    ensures AmountShape(t[20..28]) && ParseAmount(t[20..28]) == 123456
    ensures DigitsValue(DigitsOf(t[20..28])) == 123456
  {
    WidgetAmountShape(t);
    ParseGroupedAmount(t[20..28]);
    ParseAmountIsItsDigits(t[20..28]);
  }

  /** The item line yields one item: "Widget Assembly" for 1234.56. */
  lemma WidgetLine(t: string)
    requires IsWidgetLine(t)
    ensures LineItemsOf(t) == [LineItem("Widget Assembly", 123456)]
  {
    WidgetLineShape(t);
    SingleLineItem(t, Cut(1, 2, 17, 20, 25));
    WidgetDescription(t);
    WidgetAmount(t);
  }

  /** The total of the item line is its one amount, formatted back as
      `1234.56`. */
  lemma WidgetTotal(t: string)
    requires IsWidgetLine(t)
    ensures TotalCents(LineItemsOf(t)) == 123456
    ensures ParseAmount(HeaderOf(t, TotalCents(LineItemsOf(t)))[TOTAL_AMOUNT_KEY]) == 123456
  {
    WidgetLine(t);
    var items := [LineItem("Widget Assembly", 123456)];
    assert items[1..] == [];
  }

  /** A description whose words are separated by spaces and a tab. */
  const TABBED := "Widget   \tAssembly"

  predicate IsTabbed(t: string) {
    |t| == |TABBED| && forall i | 0 <= i < |t| :: t[i] == TABBED[i]
  }

  /** TABBED splits into a word, a run of whitespace and a word. */
  lemma TabbedParts(t: string)
    requires IsTabbed(t)
    ensures IsWord(t[..6]) && IsWord(t[10..])
    ensures AllIn(t[6..10], 0, 4, Space)
  {
    var a, sp, b := t[..6], t[6..10], t[10..];
    forall i | 0 <= i < |a| ensures !IsSpace(a[i]) { assert a[i] == t[i]; }
    forall i | 0 <= i < |b| ensures !IsSpace(b[i]) { assert b[i] == t[i + 10]; }
    forall i | 0 <= i < |sp| ensures InClass(sp[i], Space) { assert sp[i] == t[i + 6]; }
  }

  lemma TabbedWords(t: string)
    requires IsTabbed(t)
    ensures t[..6] + " " + t[10..] == "Widget Assembly"
  {
    var r := t[..6] + " " + t[10..];
    forall i | 0 <= i < |r| ensures r[i] == "Widget Assembly"[i] {
      if i < 6 { assert r[i] == t[i]; } else if 6 < i { assert r[i] == t[i + 3]; }
    }
  }

  /** Normalization joins the words of TABBED with a single space. */
  lemma TabbedDescription(t: string)
    requires IsTabbed(t)
    ensures Normalize(t) == "Widget Assembly"
  {
    assert t == t[..6] + t[6..10] + t[10..];
    TabbedParts(t);
    NormalizeTwoWords(t[..6], t[6..10], t[10..]);
    TabbedWords(t);
  }

  /** An item line followed by trailing text on the same line. */
  const BOLT_LINE := "1 Bolt 10.00 EXTRA"

  /** The anchored pattern needs the amount at the end of the line, so the
      trailing text hides the item: nothing is extracted and the total is
      `Not Found`. */
  lemma BoltLine(t: string)
    requires |t| == |BOLT_LINE| && forall i | 0 <= i < |t| :: t[i] == BOLT_LINE[i]
    ensures LineItemsOf(t) == []
    ensures HeaderOf(t, TotalCents(LineItemsOf(t)))[TOTAL_AMOUNT_KEY] == NOT_FOUND
  {
    OneLineWithTrailingTextHasNoItems(t);
  }

  /** A header of two lines: the invoice number, then the date. */
  const HEADER_TEXT := "INVOICE AB1234\nDate March 4, 2024"

  predicate IsHeaderText(t: string) {
    |t| == |HEADER_TEXT| && forall i | 0 <= i < |t| :: t[i] == HEADER_TEXT[i]
  }

  lemma HeaderNumberShape(t: string)
    requires IsHeaderText(t)
    ensures KeywordAt(t, 0, "INVOICE") && IsSpace(t[7])
    ensures AllIn(t, 8, 14, Alnum) && !InClass(t[14], Alnum)
  {
  }

  lemma HeaderNumberText(t: string)
    requires IsHeaderText(t)
    ensures t[8..14] == "AB1234"
  {
    var v := t[8..14];
    forall i | 0 <= i < |v| ensures v[i] == "AB1234"[i] { assert v[i] == t[i + 8]; }
  }

  lemma HeaderInvoiceNumber(t: string)
    requires IsHeaderText(t)
    ensures InvoiceNumberValue(t) == "AB1234"
  {
    HeaderNumberShape(t);
    InvoiceNumberLeading(t, 14);
    HeaderNumberText(t);
  }

  lemma HeaderDateShape(t: string)
    requires IsHeaderText(t)
    ensures DateShape(t, 15, DateCut(20, 25, 26, 27, 29))
  {
    assert KeywordAt(t, 15, "Date");
  }

  lemma HeaderNoDBefore(t: string)
    requires IsHeaderText(t)
    ensures forall q | 0 <= q < 15 :: Lower(t[q]) != 'd'
  {
  }

  lemma HeaderDateText(t: string)
    requires IsHeaderText(t)
    ensures t[20..33] == "March 4, 2024"
  {
    var v := t[20..33];
    forall i | 0 <= i < |v| ensures v[i] == "March 4, 2024"[i] { assert v[i] == t[i + 20]; }
  }

  lemma HeaderDate(t: string)
    requires IsHeaderText(t)
    ensures DateValue(t) == "March 4, 2024"
  {
    HeaderDateShape(t);
    HeaderNoDBefore(t);
    DateAfterPrefix(t, 15, DateCut(20, 25, 26, 27, 29));
    HeaderDateText(t);
  }

  /** Both header fields are found, whatever the total. */
  lemma HeaderFields(t: string, calculatedTotal: int)
    requires IsHeaderText(t)
    ensures HeaderOf(t, calculatedTotal)[INVOICE_NUMBER_KEY] == "AB1234"
    ensures HeaderOf(t, calculatedTotal)[DATE_KEY] == "March 4, 2024"
  {
    HeaderInvoiceNumber(t);
    HeaderDate(t);
  }

  /** A heading without a number: `INVOICE` needs no word boundary and is
      matched in any case, and the alphanumeric class takes lower-case letters
      too, so the word after the keyword becomes the number. */
  const HEADING := "Invoice Number 5"

  predicate IsHeading(t: string) {
    |t| == |HEADING| && forall i | 0 <= i < |t| :: t[i] == HEADING[i]
  }

  lemma HeadingShape(t: string)
    requires IsHeading(t)
    ensures KeywordAt(t, 0, "INVOICE") && IsSpace(t[7])
    ensures AllIn(t, 8, 14, Alnum) && !InClass(t[14], Alnum)
  {
  }

  lemma HeadingText(t: string)
    requires IsHeading(t)
    ensures t[8..14] == "Number"
  {
    var v := t[8..14];
    forall i | 0 <= i < |v| ensures v[i] == "Number"[i] { assert v[i] == t[i + 8]; }
  }

  lemma HeadingNumber(t: string, calculatedTotal: int)
    requires IsHeading(t)
    ensures HeaderOf(t, calculatedTotal)[INVOICE_NUMBER_KEY] == "Number"
  {
    HeadingShape(t);
    InvoiceNumberLeading(t, 14);
    HeadingText(t);
  }
}
