/** The web service's two pieces of logic around the shared helpers: the
    response of `/process-document/` once the text is known, and the name
    `/download-excel/` gives the spreadsheet. */
module Backend {
  import opened Money
  import opened LineItems
  import opened Patterns
  import opened Header
  import opened Assembly

  /** The body `/process-document/` returns. */
  datatype ProcessedDocument = ProcessedDocument(
    headerData: map<string, string>,
    lineItems: seq<LineItem>,
    rawText: string)

  /** `/process-document/` after OCR: the record of extractedText, with the
      total in its header computed from exactly the items it returns. */
  method ProcessDocument(extractedText: string) returns (response: ProcessedDocument)
    ensures response.rawText == extractedText
    ensures response.lineItems == LineItemsOf(extractedText)
    ensures response.headerData == HeaderOf(extractedText, TotalCents(response.lineItems))
    ensures response.headerData[TOTAL_AMOUNT_KEY] == FormatTotal(TotalCents(response.lineItems))
  {
    var invoiceData, lineItems := AssembleInvoice(extractedText);
    response := ProcessedDocument(invoiceData, lineItems, extractedText);
  }

  const FILENAME_SUFFIX := ".xlsx"
  const DEFAULT_NAME := "report"

  /** The attachment name: `invoice_`, then the header's invoice number, or
      `report` when the header has no such key, then `.xlsx`. */
  function DownloadFilename(headerData: map<string, string>): (r: string)
    ensures |r| >= 13
    ensures r[..8] == FILENAME_PREFIX && r[|r| - 5..] == FILENAME_SUFFIX
    ensures INVOICE_NUMBER_KEY in headerData ==> r[8..|r| - 5] == headerData[INVOICE_NUMBER_KEY]
    ensures INVOICE_NUMBER_KEY !in headerData ==> r[8..|r| - 5] == DEFAULT_NAME
  {
    var num := if INVOICE_NUMBER_KEY in headerData then headerData[INVOICE_NUMBER_KEY] else DEFAULT_NAME;
    var r := FILENAME_PREFIX + num + FILENAME_SUFFIX;
    assert r[..8] == FILENAME_PREFIX && r[8..|r| - 5] == num;
    r
  }

  /** A header the service produced always has the invoice-number key, so
      its download name never falls back to `report`: it carries the number
      of the leftmost match, or the sentinel when there is none. */
  lemma DownloadFilenameOfProcessed(text: string, calculatedTotal: int)
    ensures var name := DownloadFilename(HeaderOf(text, calculatedTotal));
      match Search(InvoiceNumber, text)
      case None => name[8..|name| - 5] == NOT_FOUND
      case Some(f) => name[8..|name| - 5] == text[f.group.start..f.group.end]
  {
    InvoiceNumberField(text, calculatedTotal);
  }
}
