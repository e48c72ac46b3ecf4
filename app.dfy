/** The Streamlit page's download name for the corrected spreadsheet:
    `invoice_<number>_corrected.xlsx`, from the header's invoice number. */
module App {
  import opened Patterns
  import opened Header

  const CORRECTED_SUFFIX := "_corrected.xlsx"

  /** The corrected-report name: the number sits between a fixed prefix and
      a fixed suffix, so it can be read back from the name. */
  function CorrectedFilename(invoiceNum: string): (r: string)
    ensures |r| == |invoiceNum| + 23
    ensures r[..8] == FILENAME_PREFIX && r[|r| - 15..] == CORRECTED_SUFFIX
    ensures r[8..|r| - 15] == invoiceNum
  {
    var r := FILENAME_PREFIX + invoiceNum + CORRECTED_SUFFIX;
    assert r[..8] == FILENAME_PREFIX && r[8..|r| - 15] == invoiceNum;
    r
  }

  /** The download name of a parsed header: it carries the invoice number of
      the leftmost match, or the sentinel when there is none. */
  lemma CorrectedFilenameOfHeader(text: string, calculatedTotal: int)
    ensures var name := CorrectedFilename(HeaderOf(text, calculatedTotal)[INVOICE_NUMBER_KEY]);
      match Search(InvoiceNumber, text)
      case None => name[8..|name| - 15] == NOT_FOUND
      case Some(f) => name[8..|name| - 15] == text[f.group.start..f.group.end]
  {
    InvoiceNumberField(text, calculatedTotal);
  }
}
