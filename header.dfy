/** `parse_universal_invoice`: the header dictionary of an invoice, with
    the invoice number and the date found in the whole text by
    `search_patterns`, `Not Found` for a field that is missing, and the
    caller's total rendered with two decimals when it is positive. */
module Header {
  import opened Chars
  import opened Money
  import opened Patterns

  const NOT_FOUND := "Not Found"
  const INVOICE_NUMBER_KEY := "Invoice Number"
  const DATE_KEY := "Date"
  const TOTAL_AMOUNT_KEY := "Total Amount"
  /** Both download names start with this and go on with the invoice number. */
  const FILENAME_PREFIX := "invoice_"

  /** Python's `or` with the sentinel: a missing or empty value gives the
      sentinel. */
  function OrNotFound(r: Option<string>): string {
    if r.None? || r.value == "" then NOT_FOUND else r.value
  }

  /** The total field: the total, in cents, rendered with two decimals when it
      is positive, and the sentinel otherwise.  The sentinel is never an
      amount, and a rendered total reads back as the total. */
  function FormatTotal(calculatedTotal: int): (v: string)
    ensures v == NOT_FOUND <==> calculatedTotal <= 0
    ensures calculatedTotal > 0 ==> AmountShape(v) && ParseAmount(v) == calculatedTotal
  {
    NotFoundIsNoAmount();
    if calculatedTotal > 0 then
      FormatParseRoundTrip(calculatedTotal);
      FormatCents(calculatedTotal)
    else NOT_FOUND
  }

  /** The characters of the sentinel that tell it apart from a value: a
      space inside, and a letter at the end. */
  lemma NotFoundLetters()
    ensures |NOT_FOUND| == 9 && NOT_FOUND[3] == ' ' && NOT_FOUND[6] == 'u' && NOT_FOUND[8] == 'd'
  {
  }

  /** A run of letters and digits is never the sentinel, which has a space. */
  lemma AlnumIsNotSentinel(v: string)
    requires AllIn(v, 0, |v|, Alnum)
    ensures v != NOT_FOUND
  {
    NotFoundLetters();
    if |v| == 9 {
      assert InClass(v[3], Alnum);
    }
  }

  /** A string ending in a digit is never the sentinel. */
  lemma DigitEndIsNotSentinel(v: string)
    requires |v| > 0 && IsDigit(v[|v| - 1])
    ensures v != NOT_FOUND
  {
    NotFoundLetters();
  }

  /** The sentinel is not a two-decimal amount, so the two outcomes of
      FormatTotal cannot be confused. */
  lemma NotFoundIsNoAmount()
    ensures !AmountShape(NOT_FOUND)
  {
    NotFoundLetters();
  }

  /** The invoice-number field: the first match of its pattern list, or the
      sentinel. */
  function InvoiceNumberValue(text: string): string {
    OrNotFound(FirstMatch(INVOICE_NO_PATTERNS, text))
  }

  /** The date field: the first match of its pattern list, or the sentinel. */
  function DateValue(text: string): string {
    OrNotFound(FirstMatch(DATE_PATTERNS, text))
  }

  /** The dictionary `parse_universal_invoice` returns. */
  function HeaderOf(text: string, calculatedTotal: int): map<string, string> {
    map[INVOICE_NUMBER_KEY := InvoiceNumberValue(text),
        DATE_KEY := DateValue(text),
        TOTAL_AMOUNT_KEY := FormatTotal(calculatedTotal)]
  }

  /** `parse_universal_invoice` as written: the dictionary filled field by
      field. */
  method ParseUniversalInvoice(text: string, calculatedTotal: int) returns (data: map<string, string>)
    ensures data == HeaderOf(text, calculatedTotal)
    ensures data.Keys == {INVOICE_NUMBER_KEY, DATE_KEY, TOTAL_AMOUNT_KEY}
  {
    data := map[];
    var invoiceNumber := SearchPatterns(INVOICE_NO_PATTERNS, text);
    data := data[INVOICE_NUMBER_KEY := OrNotFound(invoiceNumber)];
    var date := SearchPatterns(DATE_PATTERNS, text);
    data := data[DATE_KEY := OrNotFound(date)];
    data := data[TOTAL_AMOUNT_KEY := FormatTotal(calculatedTotal)];
  }

  /** A field with a single pattern that matches nowhere is `Not Found`. */
  lemma OneNotFound(pat: Pattern, text: string)
    requires Search(pat, text).None?
    ensures OrNotFound(FirstMatch([pat], text)) == NOT_FOUND
  {
    FirstMatchOfOne(pat, text);
  }

  /** A group that strip leaves as it is and that is not empty passes
      through `or` unchanged. */
  lemma OrNotFoundOfTrimmed(text: string, g: Group, v: string)
    requires g.start <= g.end <= |text|
    requires var s := text[g.start..g.end]; Strip(s) == s && s != ""
    requires v == OrNotFound(Some(Strip(text[g.start..g.end])))
    ensures v == text[g.start..g.end]
  {
  }

  /** The invoice-number field of a successful search, before `or`. */
  lemma InvoiceNumberValueOfFound(text: string, f: Found)
    requires Search(InvoiceNumber, text) == Some(f)
    ensures InvoiceNumberValue(text) == OrNotFound(Some(GroupText(text, f)))
  {
    FirstMatchOfOne(InvoiceNumber, text);
  }

  /** The date field of a successful search, before `or`. */
  lemma DateValueOfFound(text: string, f: Found)
    requires Search(InvoiceDate, text) == Some(f)
    ensures DateValue(text) == OrNotFound(Some(GroupText(text, f)))
  {
    FirstMatchOfOne(InvoiceDate, text);
  }

  /** A found invoice number: the whole alphanumeric run of the leftmost match. */
  lemma InvoiceNumberFound(text: string, f: Found)
    requires Search(InvoiceNumber, text) == Some(f)
    ensures InvoiceNumberShape(text, f.pos, f.group.start, f.group.end)
    ensures var v := InvoiceNumberValue(text);
      v == text[f.group.start..f.group.end] && |v| > 0 && AllIn(v, 0, |v|, Alnum) && v != NOT_FOUND
  {
    SearchedInvoiceNumber(text, f);
    InvoiceGroup(text, f.pos, f.group.start, f.group.end);
    AlnumIsNotSentinel(text[f.group.start..f.group.end]);
    InvoiceNumberValueOfFound(text, f);
    OrNotFoundOfTrimmed(text, f.group, InvoiceNumberValue(text));
  }

  /** The invoice number, when found, is the whole alphanumeric run after the
      leftmost `INVOICE` and whitespace in any case: never empty, never with
      whitespace, never the sentinel. */
  lemma InvoiceNumberField(text: string, calculatedTotal: int)
    ensures var v := HeaderOf(text, calculatedTotal)[INVOICE_NUMBER_KEY];
      match Search(InvoiceNumber, text)
      case None => v == NOT_FOUND
      case Some(f) =>
        InvoiceNumberShape(text, f.pos, f.group.start, f.group.end)
        && v == text[f.group.start..f.group.end]
        && |v| > 0 && AllIn(v, 0, |v|, Alnum)
  {
    assert HeaderOf(text, calculatedTotal)[INVOICE_NUMBER_KEY] == InvoiceNumberValue(text);
    match Search(InvoiceNumber, text)
    case None => OneNotFound(InvoiceNumber, text);
    case Some(f) => InvoiceNumberFound(text, f);
  }

  /** The invoice number is `Not Found` exactly when the pattern matches
      nowhere in the text. */
  lemma InvoiceNumberNotFoundIff(text: string, calculatedTotal: int)
    ensures HeaderOf(text, calculatedTotal)[INVOICE_NUMBER_KEY] == NOT_FOUND
      <==> forall p | 0 <= p <= |text| :: InvoiceNumberAt(text, p).None?
  {
    assert HeaderOf(text, calculatedTotal)[INVOICE_NUMBER_KEY] == InvoiceNumberValue(text);
    match Search(InvoiceNumber, text)
    case None =>
      OneNotFound(InvoiceNumber, text);
      SearchIsLeftmost(InvoiceNumber, text);
      forall p | 0 <= p <= |text| ensures InvoiceNumberAt(text, p).None? {
        assert CaptureAt(InvoiceNumber, text, p) == InvoiceNumberAt(text, p);
      }
    case Some(f) =>
      InvoiceNumberFound(text, f);
      assert InvoiceNumberAt(text, f.pos).Some?;
  }

  /** The value of a found date: the group text, which strip leaves as it is. */
  lemma DateValueFound(text: string, f: Found, c: DateCut)
    requires Search(InvoiceDate, text) == Some(f)
    requires DateShape(text, f.pos, c) && f.group == Group(c.w1, c.y + 4)
    ensures DateValue(text) == text[f.group.start..f.group.end] && DateValue(text) != NOT_FOUND
  {
    DateGroup(text, f.pos, c);
    DigitEndIsNotSentinel(text[c.w1..c.y + 4]);
    DateValueOfFound(text, f);
    OrNotFoundOfTrimmed(text, f.group, DateValue(text));
  }

  /** A text that opens with `INVOICE` and one whitespace character followed
      by a maximal alphanumeric run has that run as its invoice number. */
  lemma InvoiceNumberLeading(text: string, n: nat)
    requires KeywordAt(text, 0, "INVOICE") && 8 < n <= |text| && IsSpace(text[7])
    requires AllIn(text, 8, n, Alnum) && (n == |text| || !InClass(text[n], Alnum))
    ensures InvoiceNumberValue(text) == text[8..n]
  {
    assert AllIn(text, 7, 8, Space);
    InvoiceNumberAtComplete(text, 0, 8, n);
    RunEndExact(text, 8, n, Alnum);
    assert Captures(InvoiceNumber, text)[0] == Some(Group(8, n));
    InvoiceNumberFound(text, Found(0, Group(8, n)));
  }

  /** No letter i or I, no invoice number. */
  lemma InvoiceNumberAbsent(text: string, calculatedTotal: int)
    requires forall q | 0 <= q < |text| :: Lower(text[q]) != 'i'
    ensures HeaderOf(text, calculatedTotal)[INVOICE_NUMBER_KEY] == NOT_FOUND
  {
    forall p | 0 <= p <= |text| ensures InvoiceNumberAt(text, p).None? {
      if p < |text| {
        assert Lower(text[p + 0]) != Lower("INVOICE"[0]);
      }
    }
    InvoiceNumberNotFoundIff(text, calculatedTotal);
  }

  /** A found date: the text of the leftmost match, from month to year. */
  lemma DateFound(text: string, f: Found)
    requires Search(InvoiceDate, text) == Some(f)
    ensures exists c :: DateShape(text, f.pos, c) && f.group == Group(c.w1, c.y + 4)
    ensures DateValue(text) == text[f.group.start..f.group.end] && DateValue(text) != NOT_FOUND
  {
    SearchedDate(text, f);
    var c := DateCutAt(text, f.pos).value;
    DateValueFound(text, f, c);
  }

  /** The date, when found, is taken verbatim from the leftmost match: month
      letters, whitespace, a one- or two-digit day, a comma, whitespace and
      a four-digit year. */
  lemma DateField(text: string, calculatedTotal: int)
    ensures var v := HeaderOf(text, calculatedTotal)[DATE_KEY];
      match Search(InvoiceDate, text)
      case None => v == NOT_FOUND
      case Some(f) =>
        (exists c :: DateShape(text, f.pos, c) && f.group == Group(c.w1, c.y + 4))
        && v == text[f.group.start..f.group.end]
  {
    assert HeaderOf(text, calculatedTotal)[DATE_KEY] == DateValue(text);
    match Search(InvoiceDate, text)
    case None => OneNotFound(InvoiceDate, text);
    case Some(f) => DateFound(text, f);
  }

  /** The date is `Not Found` exactly when the pattern matches nowhere. */
  lemma DateNotFoundIff(text: string, calculatedTotal: int)
    ensures HeaderOf(text, calculatedTotal)[DATE_KEY] == NOT_FOUND
      <==> forall p | 0 <= p <= |text| :: DateAt(text, p).None?
  {
    assert HeaderOf(text, calculatedTotal)[DATE_KEY] == DateValue(text);
    match Search(InvoiceDate, text)
    case None =>
      OneNotFound(InvoiceDate, text);
      SearchIsLeftmost(InvoiceDate, text);
      forall p | 0 <= p <= |text| ensures DateAt(text, p).None? {
        assert CaptureAt(InvoiceDate, text, p) == DateAt(text, p);
      }
    case Some(f) =>
      DateFound(text, f);
      assert DateAt(text, f.pos).Some?;
  }

  /** A date whose keyword is the first letter d or D of the text is the
      date field, verbatim. */
  lemma DateAfterPrefix(text: string, p: nat, c: DateCut)
    requires DateShape(text, p, c)
    requires forall q | 0 <= q < p :: Lower(text[q]) != 'd'
    ensures DateValue(text) == text[c.w1..c.y + 4]
  {
    DateCutAtComplete(text, p, c);
    var g := Group(c.w1, c.y + 4);
    assert CaptureAt(InvoiceDate, text, p) == Some(g);
    forall q | 0 <= q < p ensures CaptureAt(InvoiceDate, text, q).None? {
      assert Lower(text[q + 0]) != Lower("Date"[0]);
      assert !KeywordAt(text, q, "Date");
    }
    SearchAt(InvoiceDate, text, p, g);
    DateValueFound(text, Found(p, g), c);
  }

  /** No letter d or D, no date. */
  lemma DateAbsent(text: string, calculatedTotal: int)
    requires forall q | 0 <= q < |text| :: Lower(text[q]) != 'd'
    ensures HeaderOf(text, calculatedTotal)[DATE_KEY] == NOT_FOUND
  {
    forall p | 0 <= p <= |text| ensures DateAt(text, p).None? {
      if p < |text| {
        assert Lower(text[p + 0]) != Lower("Date"[0]);
      }
    }
    DateNotFoundIff(text, calculatedTotal);
  }

  /** Each field depends on its own inputs only: the invoice number and the
      date on the text, the total on the total. */
  lemma FieldsAreIndependent(text: string, text': string, t: int, t': int)
    ensures HeaderOf(text, t)[INVOICE_NUMBER_KEY] == HeaderOf(text, t')[INVOICE_NUMBER_KEY]
    ensures HeaderOf(text, t)[DATE_KEY] == HeaderOf(text, t')[DATE_KEY]
    ensures HeaderOf(text, t)[TOTAL_AMOUNT_KEY] == HeaderOf(text', t)[TOTAL_AMOUNT_KEY]
  {
  }
}
