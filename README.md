# Invoice text extractor — a verified Dafny model

The system reads the text that OCR produced from an invoice. It extracts a
structured record from that text:

- **Line items.** Every match of the MULTILINE pattern
  `^\d+\s+(.*?)\s+([\d,]+\.\d{2})$`, in text order. Each item has a
  whitespace-normalized description and an amount.
- **A header.**
  - The invoice number is the first match of `INVOICE\s+([A-Z0-9]+)`.
  - The date is the first match of `Date\s+([A-Za-z]+\s+\d{1,2},\s+\d{4})`.
  - Both are searched case-insensitively over the whole text, with the
    group stripped, or `Not Found`.
  - The total amount is the caller's sum of the item amounts. It is
    rendered with two decimals when it is positive, and is `Not Found`
    otherwise.
- **Two entry points.** A Streamlit page and a web service each assemble
  this record. Each also names a spreadsheet download after the invoice
  number.

The two entry points carry identical copies of the helpers:
`backend.py:30-56` repeats `app_ocr_analysis.py:50-76` line for line. The
helpers are modelled once. A row citing one copy holds for the other at the
same offset.

Modules, in dependency order:

- `Chars` (chars.dfy): character classes on ASCII, and maximal runs.
- `Whitespace` (whitespace.dfy): `str.split()`, joining with single spaces,
  and the normalized form.
- `Money` (money.dfy): amount text read as integer cents, and two-decimal
  rendering.
- `LineItems` (line_items.dfy): a hand-written backtracking matcher for the
  line pattern, `findall`, the extraction loop, and the total.
- `Patterns` (patterns.dfy): the two header patterns, `re.search`, `strip`,
  and the first-match-wins loop `search_patterns`.
- `Header` (header.dfy): `parse_universal_invoice` and its three fields.
- `Assembly` (assembly.dfy): the shared order of work: extract, then sum,
  then parse the header.
- `App` (app.dfy): the corrected-report file name of the Streamlit page.
- `Backend` (backend.dfy): the `/process-document/` response and the
  `/download-excel/` attachment name.
- `Scenarios` (scenarios.dfy): worked inputs. Each takes its text as a
  parameter that agrees character by character with a named constant.

Regex semantics follow Python's `re`. The model does not use a general
regex engine.

- `\s` includes the newline, so both whitespace runs of the line pattern may
  cross a line break.
- The description `.*?` stops at a newline.
- The leading digits and the second whitespace run are maximal. The first
  whitespace run is tried longest first. The lazy description is tried
  shortest first.
- As a result, the description may be empty, and the amount is always the
  last token before the line end.
- `[\d,]+` may be commas only.
- `IGNORECASE` lets `[A-Z0-9]` take lower-case letters.
- `INVOICE` needs no word boundary, so `Invoice Number 5` yields `Number`.

Three consequences of the code that a reader might not expect:

- `\s` includes the newline, so a line-item match may begin on one line
  and end on a later one; the pattern is not applied line by line.
- Under `IGNORECASE` the invoice-number class `[A-Z0-9]` also takes
  lower-case letters.
- The source holds amounts as `float`; the model reads them exactly, in
  cents.

## Model

| member | source | states |
|---|---|---|
| Whitespace.Words | app_ocr_analysis.py:55 | `str.split()`: every word is a non-empty run without whitespace; WordsOfWordThen, WordsSkipsSpace and the empty case fix the list |
| Whitespace.WordsOfWordThen | app_ocr_analysis.py:55 | a whitespace-free word followed by the end or by whitespace splits off as exactly that word, before the words of the rest |
| Whitespace.Join | app_ocr_analysis.py:55 | `' '.join`: words glued with single spaces; JoinIsNormalized and WordsOfJoin state its normal form and that splitting it gives back the words |
| Whitespace.Normalize | app_ocr_analysis.py:55 | the cleaned description has no leading or trailing whitespace, and whitespace occurs only as single spaces between two other characters |
| Whitespace.NormalizeIdempotent | app_ocr_analysis.py:55 | cleaning a description twice gives the same as cleaning it once |
| Whitespace.NormalizeKeepsWords | app_ocr_analysis.py:55 | the cleaned description has exactly the words of the matched one, in order |
| Whitespace.NormalizeFixesNormalized | app_ocr_analysis.py:55 | a description already in normal form is left unchanged |
| Whitespace.WordsOfJoin | app_ocr_analysis.py:55 | splitting words joined by single spaces gives back those words (the split/join round trip) |
| Whitespace.JoinIsNormalized | app_ocr_analysis.py:55 | joining whitespace-free words with single spaces gives normal form, non-empty when there is a word |
| Whitespace.NormalizeTwoWords | app_ocr_analysis.py:55 | two words separated by any run of whitespace come out separated by one space |
| Whitespace.WordsSkipsSpace | app_ocr_analysis.py:55 | leading whitespace produces no word |
| Money.StripCommas | app_ocr_analysis.py:57 | `replace(',', '')` leaves no comma and changes a comma-free string not at all; StripCommasIsDigitsOf says what is kept |
| Money.ParseAmount | app_ocr_analysis.py:56-57 | `float(amount.replace(',', ''))` in cents; ParseAmountIsItsDigits reads it as the value of the amount's digits, and FormatParseRoundTrip as the inverse of the rendering |
| Money.StripCommasOfAmount | app_ocr_analysis.py:57 | removing the commas of a `[\d,]+\.\d{2}` amount leaves a decimal with digits only before the point |
| Money.StripCommasIsDigitsOf | app_ocr_analysis.py:57 | on digits and commas, removing the commas keeps exactly the digits, in order |
| Money.ParseAmountIsItsDigits | app_ocr_analysis.py:56-57 | an amount is worth, in cents, the number its digits spell in order; commas and the point do not count |
| Money.GroupedDigits | app_ocr_analysis.py:57 | an amount of the form `d,ddd.dd` has the six digits it shows, in order |
| Money.ParseGroupedAmount | app_ocr_analysis.py:56-57 | `1,234.56` is worth 123456 cents |
| Money.ParseCommasOnly | app_ocr_analysis.py:52 | `,.00` is an amount the pattern accepts, and it is worth 0 |
| Money.DigitsRoundTrip | app_ocr_analysis.py:75 | the decimal digits of n read back as n |
| Money.FormatCents | app_ocr_analysis.py:75 | the two-decimal rendering has an amount's shape and no commas; it starts with 0 exactly below one unit, and then it is `0.dd`, four characters |
| Money.FormatParseRoundTrip | app_ocr_analysis.py:75 | reading back the two-decimal rendering of a total gives the same number of cents |
| LineItems.CutAt | app_ocr_analysis.py:52 | a cut the matcher reports fits the pattern at p; MatchAtIff and MatchAtIsPreferred say it exists whenever one fits and is the backtracking choice |
| LineItems.MatchAt | app_ocr_analysis.py:52 | an anchored match starts at p and ends inside the text; MatchAtIff and MatchAtIsPreferred specify it |
| LineItems.MatchAtIff | app_ocr_analysis.py:52 | the matcher succeeds at p exactly when some way of cutting the text fits the pattern at p |
| LineItems.MatchAtIsPreferred | app_ocr_analysis.py:52 | the cut the matcher reports is the one backtracking finds first: the longest first whitespace run, then the shortest description |
| LineItems.FindAllReported | app_ocr_analysis.py:52 | every match starts at a line start with a digit and ends at a line end after a point and two digits, and its description holds no newline |
| LineItems.FindAll | app_ocr_analysis.py:53 | `findall` as a left-to-right scan that resumes after each match; FindAllSound, FindAllOrdered and FindAllCovers fix its list exactly |
| LineItems.FindAllSound | app_ocr_analysis.py:53 | every match `findall` reports is the match of the pattern at its start |
| LineItems.FindAllOrdered | app_ocr_analysis.py:53 | the reported matches do not overlap and come in text order |
| LineItems.FindAllCovers | app_ocr_analysis.py:53 | every position where the pattern matches is reported or lies inside a reported match |
| LineItems.FindAllEmptyIff | app_ocr_analysis.py:53 | `findall` reports nothing exactly when the pattern matches nowhere |
| LineItems.ToItem | app_ocr_analysis.py:55-57 | the row of one match keeps the match's words, in order and in normal form, and its amount is the value of the amount's digits |
| LineItems.ItemsOf | app_ocr_analysis.py:54-57 | one item per match, the same number as there are matches; ToItem gives each its normalized description and parsed amount |
| LineItems.LineItemsOf | app_ocr_analysis.py:50-58 | one item per reported match, and none exactly when the pattern matches nowhere |
| LineItems.CollectItems | app_ocr_analysis.py:54-57 | the loop over the matches yields one item per match, in order, with that match's normalized description and parsed amount |
| LineItems.ExtractLineItems | app_ocr_analysis.py:50-58 | the function returns the items of the matches `findall` reports, one per match, in order |
| LineItems.LineItemsInTextOrder | app_ocr_analysis.py:50-58 | the items correspond one to one, in order, to non-overlapping matches; the list is empty exactly when the pattern matches nowhere |
| LineItems.LineItemContents | backend.py:32-37 | each description is normalized; each amount is the value of the digits of the matched amount, which is the text just before a line end |
| LineItems.NoItemEndsAfterTrailingText | app_ocr_analysis.py:52 | every match ends at a line end, right after a digit |
| LineItems.OneLineWithTrailingTextHasNoItems | app_ocr_analysis.py:52 | a single line that does not end in a digit, such as one with text or a space after the amount, yields no item |
| LineItems.NoItemsWithoutLeadingDigits | app_ocr_analysis.py:52 | a text in which no line starts with a digit yields no item |
| LineItems.SingleLineMatch | app_ocr_analysis.py:50-58 | any one-line text on which the pattern matches at its start yields exactly the item of that match, whatever its description and whitespace |
| LineItems.SingleLineItem | app_ocr_analysis.py:50-58 | for a one-line item line whose description is non-empty, starts with a non-space and ends in a character that is neither whitespace, a digit nor a comma, the single item has that description normalized and the amount its digits spell |
| LineItems.TotalCents | app_ocr_analysis.py:161 | the sum of the amounts; TotalCentsZeroIff, TotalCentsBoundsItems and TotalCentsAppend specify it |
| LineItems.TotalCentsZeroIff | app_ocr_analysis.py:161 | the sum of the amounts is zero exactly when every amount is zero, the empty list included |
| LineItems.TotalCentsBoundsItems | app_ocr_analysis.py:161 | each item's amount is at most the sum |
| LineItems.TotalCentsAppend | app_ocr_analysis.py:161 | the sum over two lists joined is the sum of the two sums |
| Patterns.InvoiceNumberAt | app_ocr_analysis.py:63 | a capture of `INVOICE\s+([A-Z0-9]+)` at p has the keyword in any case, whitespace and an alphanumeric group; InvoiceNumberAtComplete says which |
| Patterns.DateCutAt | app_ocr_analysis.py:64 | a date match at p has the date shape; DateCutAtComplete says it is found whenever the shape fits, and is unique |
| Patterns.Search | app_ocr_analysis.py:68 | a search result is a capture at its position; SearchIsLeftmost and SearchAt make it the leftmost one |
| Patterns.InvoiceNumberAtComplete | app_ocr_analysis.py:63 | after the keyword and whitespace, the invoice-number matcher captures the whole alphanumeric run |
| Patterns.DateCutAtComplete | app_ocr_analysis.py:64 | whenever the date shape fits at p, with its keyword, letters, day, comma and year, the date matcher finds exactly that shape |
| Patterns.DateAt | app_ocr_analysis.py:64 | a date capture spans a month word, whitespace, one or two digits, a comma, whitespace and four digits |
| Patterns.SearchIsLeftmost | app_ocr_analysis.py:68 | `re.search` fails exactly when the pattern matches nowhere; otherwise it reports a match with none to its left |
| Patterns.SearchAt | app_ocr_analysis.py:68 | a match at p with none before it is exactly what `re.search` reports |
| Patterns.Strip | app_ocr_analysis.py:70 | a stripped group is a contiguous part of the group with only whitespace removed before and after it, and it neither starts nor ends with whitespace |
| Patterns.StripKeepsTrimmed | app_ocr_analysis.py:70 | stripping a group without outer whitespace leaves it unchanged |
| Patterns.FirstMatch | app_ocr_analysis.py:66-71 | the first-match-wins result over the pattern list; FirstMatchNoneIff and FirstMatchIsFirst specify it |
| Patterns.GroupText | app_ocr_analysis.py:70 | the stripped group 1 of a search result; Strip, InvoiceGroup and DateGroup say what it holds |
| Patterns.SearchPatterns | app_ocr_analysis.py:66-71 | the early-return loop computes the first-match-wins result |
| Patterns.FirstMatchNoneIff | app_ocr_analysis.py:66-71 | the search gives nothing exactly when every pattern in the list fails |
| Patterns.FirstMatchIsFirst | app_ocr_analysis.py:66-71 | when every pattern before the i-th fails and the i-th matches, the result is the stripped group of the i-th |
| Patterns.InvoiceGroup | app_ocr_analysis.py:63 | a captured invoice number is non-empty, alphanumeric and unchanged by stripping |
| Patterns.DateGroup | app_ocr_analysis.py:64 | a captured date is non-empty, ends in a digit and is unchanged by stripping |
| Header.OrNotFound | app_ocr_analysis.py:73-74 | `or 'Not Found'`: the found text, or the sentinel when nothing or the empty text was found; InvoiceNumberField and DateField state the resulting fields |
| Header.FormatTotal | app_ocr_analysis.py:75 | the total field is `Not Found` exactly when the total is not positive; otherwise it is an amount that reads back as the total |
| Header.HeaderOf | app_ocr_analysis.py:61-76 | the header's three fields by key; InvoiceNumberField, DateField, FormatTotal and FieldsAreIndependent specify them |
| Header.ParseUniversalInvoice | app_ocr_analysis.py:61-76 | the dictionary built field by field has exactly the three keys, with the header's three fields |
| Header.AlnumIsNotSentinel | app_ocr_analysis.py:73 | no alphanumeric text equals the sentinel, so a found invoice number cannot be mistaken for it |
| Header.InvoiceNumberField | app_ocr_analysis.py:73 | the invoice number is `Not Found` when the pattern matches nowhere; otherwise it is the whole alphanumeric run of the leftmost match, non-empty and verbatim |
| Header.InvoiceNumberNotFoundIff | backend.py:53 | the invoice number is `Not Found` exactly when the pattern matches at no position |
| Header.InvoiceNumberLeading | app_ocr_analysis.py:63 | a text that opens with the keyword in any case, one whitespace character and an alphanumeric run has that run as its invoice number |
| Header.InvoiceNumberAbsent | app_ocr_analysis.py:73 | a text without the letter i yields `Not Found` for the invoice number |
| Header.DateField | app_ocr_analysis.py:74 | the date is `Not Found` when the pattern matches nowhere; otherwise it is the leftmost match's group, verbatim and of the date shape |
| Header.DateNotFoundIff | backend.py:54 | the date is `Not Found` exactly when the pattern matches at no position |
| Header.DateAfterPrefix | app_ocr_analysis.py:64 | a date shape whose keyword holds the first d of the text gives the date field, verbatim |
| Header.DateAbsent | app_ocr_analysis.py:74 | a text without the letter d yields `Not Found` for the date |
| Header.FieldsAreIndependent | app_ocr_analysis.py:73-75 | the invoice number and the date do not depend on the total, and the total field does not depend on the text |
| Assembly.AssembleInvoice | app_ocr_analysis.py:160-162 | the items are those of the text, and the header, total field included, is parsed with the sum of exactly those items |
| Assembly.TotalAmountField | app_ocr_analysis.py:160-162 | the header's total is `Not Found` exactly when every extracted amount is zero; otherwise it reads back as the sum of the items and bounds each of them |
| App.CorrectedFilename | app_ocr_analysis.py:193 | the download name is `invoice_`, the invoice number and `_corrected.xlsx`, so the number can be read back from it |
| App.CorrectedFilenameOfHeader | app_ocr_analysis.py:189-193 | the name built from a parsed header carries the leftmost invoice number, or `Not Found` |
| Backend.ProcessDocument | backend.py:81-84 | the response echoes the text and holds its items, and its header total is computed from exactly those items |
| Backend.DownloadFilename | backend.py:127 | the attachment name is `invoice_`, the header's invoice number (`report` when the key is absent) and `.xlsx` |
| Backend.DownloadFilenameOfProcessed | backend.py:127 | a header the service produced always has the key, so the name carries the leftmost invoice number or `Not Found`; it never falls back to `report` |
| Scenarios.WidgetLine | app_ocr_analysis.py:50-58 | `3 Widget Assembly   1,234.56` yields one item, `Widget Assembly` for 123456 cents |
| Scenarios.WidgetTotal | app_ocr_analysis.py:75 | for that line the total is 123456 cents, and the header's total field reads back as it |
| Scenarios.TabbedDescription | app_ocr_analysis.py:55 | `Widget`, three spaces, a tab and `Assembly` is cleaned to `Widget Assembly` |
| Scenarios.BoltLine | app_ocr_analysis.py:52 | `1 Bolt 10.00 EXTRA` yields no item, and the total field is `Not Found` |
| Scenarios.HeaderFields | app_ocr_analysis.py:73-74 | the two-line header `INVOICE AB1234` / `Date March 4, 2024` yields `AB1234` and `March 4, 2024` |
| Scenarios.HeadingNumber | app_ocr_analysis.py:63 | `Invoice Number 5` yields the invoice number `Number` |

## Left out

- OCR, images and PDF pages are not modelled. The model starts from the
  extracted text, which is a parameter.
- Calls to the language model are not modelled: the chat page and the
  `/chat/` endpoint are network clients.
- The Streamlit page, its session state, editable tables and chart are not
  modelled. In particular, the file name is built from the parsed header.
  A user's edits to the header table before download are not modelled.
- Spreadsheet writing with pandas and openpyxl is not modelled. Neither
  are FastAPI routing, CORS, file upload and the HTTP 500 error path.
- script.js is not part of this model: it is browser code around the web
  service.
- Floating point is not modelled. An amount is the exact number of cents.
  The source holds amounts as `float`, sums them in binary floating point
  and rounds on display.
- Money.FormatCents: renders the exact cents. It does not model a
  floating-point sum that lands just below a cent boundary and then rounds.
- Character classes cover ASCII only. Non-ASCII digits, letters and
  whitespace, and the special cases of case-insensitive matching beyond
  ASCII, are left out.
- Header.HeaderOf: the header is a `map`, which has no key order. The
  source's dictionary keeps `Invoice Number`, `Date`, `Total Amount` in that
  order, which fixes the column order of the Summary sheet and the key order
  of the JSON response; the model does not capture that order.
- App.CorrectedFilenameOfHeader: when no line item is extracted, the page
  raises a `NameError` at app_ocr_analysis.py:172 (the edited item table is
  never bound) and never builds the file name at app_ocr_analysis.py:193.
  The model describes the name the page would build; it does not model
  that crash.
- Backend.DownloadFilename: takes header values as strings. The service
  accepts any JSON value there and formats it with `str`.
