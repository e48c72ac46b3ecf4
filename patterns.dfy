/** The inner `search_patterns` of `parse_universal_invoice` and the two
    patterns it is given: each pattern is searched for over the whole text,
    case-insensitively, and the first pattern in list order that matches
    gives its stripped group 1.

    Choices about the patterns, each as Python's `re` behaves:
    - `re.search` reports the leftmost position where the pattern matches.
    - Under `re.IGNORECASE` the literals `INVOICE` and `Date` match in any
      case, and `[A-Z0-9]` accepts lower-case letters as well.
    - Neither literal needs a word boundary: `Invoice Number 12` yields
      `Number`, and `Invoiced 7` does not match at all (a letter follows).
    - Every quantifier in both patterns is greedy and, as what follows it
      can never start with a character it consumes, it never backtracks. */
module Patterns {
  import opened Chars

  /** The two header patterns:
      InvoiceNumber is `INVOICE\s+([A-Z0-9]+)`,
      InvoiceDate is `Date\s+([A-Za-z]+\s+\d{1,2},\s+\d{4})`. */
  datatype Pattern = InvoiceNumber | InvoiceDate

  /** `invoice_no_patterns` and `date_patterns`. */
  const INVOICE_NO_PATTERNS: seq<Pattern> := [InvoiceNumber]
  const DATE_PATTERNS: seq<Pattern> := [InvoiceDate]

  /** The literal kw occurs at p, letters compared case-insensitively. */
  predicate KeywordAt(text: string, p: nat, kw: string) {
    p + |kw| <= |text| && forall i | 0 <= i < |kw| :: Lower(text[p + i]) == Lower(kw[i])
  }

  /** The span text[start..end] of group 1. */
  datatype Group = Group(start: nat, end: nat)

  /** `INVOICE\s+([A-Z0-9]+)` matches at p with group 1 at text[w..e]; the
      greedy `[A-Z0-9]+` takes the whole alphanumeric run. */
  predicate InvoiceNumberShape(text: string, p: nat, w: nat, e: nat) {
    KeywordAt(text, p, "INVOICE")
    && p + 7 < w && AllIn(text, p + 7, w, Space)
    && w < e && AllIn(text, w, e, Alnum)
    && (e == |text| || !InClass(text[e], Alnum))
  }

  function InvoiceNumberAt(text: string, p: nat): (r: Option<Group>)
    ensures r.Some? ==> InvoiceNumberShape(text, p, r.value.start, r.value.end)
  {
    if !KeywordAt(text, p, "INVOICE") then None
    else
      var w := RunEnd(text, p + 7, Space);
      var e := RunEnd(text, w, Alnum);
      if p + 7 < w && w < e then Some(Group(w, e)) else None
  }

  /** Whenever the keyword, some whitespace and some alphanumerics follow each
      other at p, the pattern matches there, and group 1 is the whole
      alphanumeric run. */
  lemma InvoiceNumberAtComplete(text: string, p: nat, w: nat, e: nat)
    requires KeywordAt(text, p, "INVOICE")
    requires p + 7 < w && AllIn(text, p + 7, w, Space)
    requires w < e && AllIn(text, w, e, Alnum)
    ensures InvoiceNumberAt(text, p) == Some(Group(w, RunEnd(text, w, Alnum)))
  {
    RunEndExact(text, p + 7, w, Space);
    RunEndExact(text, w, e, Alnum);
  }

  /** The positions of a match of the date pattern at p: whitespace up to w1,
      the month text[w1..l], whitespace up to w2, the day text[w2..n], the
      comma at n, whitespace up to y, and the year text[y..y + 4]. */
  datatype DateCut = DateCut(w1: nat, l: nat, w2: nat, n: nat, y: nat)

  predicate DateShape(text: string, p: nat, c: DateCut) {
    KeywordAt(text, p, "Date")
    && p + 4 < c.w1 && AllIn(text, p + 4, c.w1, Space)
    && c.w1 < c.l && AllIn(text, c.w1, c.l, Letter)
    && c.l < c.w2 && AllIn(text, c.l, c.w2, Space)
    && c.w2 < c.n <= c.w2 + 2 && AllIn(text, c.w2, c.n, Digit)
    && c.n < |text| && text[c.n] == ','
    && c.n + 1 < c.y && AllIn(text, c.n + 1, c.y, Space)
    && c.y + 4 <= |text| && AllIn(text, c.y, c.y + 4, Digit)
  }

  /** `\d{1,2}` at i: two digits when there are two, else one, else none. */
  function DayEnd(text: string, i: nat): (r: nat)
    requires i <= |text|
    ensures i <= r <= i + 2 && r <= |text| && AllIn(text, i, r, Digit)
  {
    if i + 1 < |text| && IsDigit(text[i]) && IsDigit(text[i + 1]) then i + 2
    else if i < |text| && IsDigit(text[i]) then i + 1
    else i
  }

  /** `,\s+\d{4}` after the day: the comma at n, whitespace, and the start
      of the four-digit year. */
  function YearAt(text: string, n: nat): (r: Option<nat>)
    ensures r.Some? ==>
      n < |text| && text[n] == ','
      && n + 1 < r.value && AllIn(text, n + 1, r.value, Space)
      && r.value + 4 <= |text| && AllIn(text, r.value, r.value + 4, Digit)
  {
    if n < |text| && text[n] == ',' then
      var y := RunEnd(text, n + 1, Space);
      if n + 1 < y && y + 4 <= |text| && AllIn(text, y, y + 4, Digit) then Some(y) else None
    else None
  }

  function DateCutAt(text: string, p: nat): (r: Option<DateCut>)
    ensures r.Some? ==> DateShape(text, p, r.value)
  {
    if !KeywordAt(text, p, "Date") then None
    else
      var w1 := RunEnd(text, p + 4, Space);
      var l := RunEnd(text, w1, Letter);
      var w2 := RunEnd(text, l, Space);
      var n := DayEnd(text, w2);
      if p + 4 < w1 && w1 < l && l < w2 && w2 < n then
        match YearAt(text, n)
        case Some(y) => Some(DateCut(w1, l, w2, n, y))
        case None => None
      else None
  }

  /** The year part matches wherever a comma, whitespace and four digits
      follow each other, with the whole whitespace run before the year. */
  lemma YearAtComplete(text: string, n: nat, y: nat)
    requires n < |text| && text[n] == ','
    requires n + 1 < y && AllIn(text, n + 1, y, Space)
    requires y + 4 <= |text| && AllIn(text, y, y + 4, Digit)
    ensures YearAt(text, n) == Some(y)
  {
    RunEndExact(text, n + 1, y, Space);
  }

  /** The date pattern matches at p along every cut that fits, and that cut
      is the one DateCutAt reports: the date pattern has one way to match. */
  lemma DateCutAtComplete(text: string, p: nat, c: DateCut)
    requires DateShape(text, p, c)
    ensures DateCutAt(text, p) == Some(c)
  {
    assert IsLetter(text[c.w1]) && IsSpace(text[c.l]) && IsDigit(text[c.w2]);
    RunStops(text, p + 4, c.w1, Space);
    RunStops(text, c.w1, c.l, Letter);
    RunStops(text, c.l, c.w2, Space);
    DayEndExact(text, c.w2, c.n);
    YearAtComplete(text, c.n, c.y);
  }

  /** `\d{1,2}` followed by a non-digit takes every digit before it. */
  lemma DayEndExact(text: string, i: nat, n: nat)
    requires i < n <= i + 2 && AllIn(text, i, n, Digit)
    requires n < |text| && !IsDigit(text[n])
    ensures DayEnd(text, i) == n
  {
  }

  /** Group 1 of the date pattern: from the month to the end of the year. */
  function DateAt(text: string, p: nat): (r: Option<Group>)
    ensures r.Some? ==> exists c :: DateShape(text, p, c) && r.value == Group(c.w1, c.y + 4)
  {
    match DateCutAt(text, p)
    case None => None
    case Some(c) => Some(Group(c.w1, c.y + 4))
  }

  /** Group 1 of pattern pat when it matches at p. */
  function CaptureAt(pat: Pattern, text: string, p: nat): (r: Option<Group>)
    ensures r.Some? ==> r.value.start < r.value.end <= |text|
  {
    match pat
    case InvoiceNumber => InvoiceNumberAt(text, p)
    case InvoiceDate => DateAt(text, p)
  }

  /** A successful `re.search`: where the match starts, and group 1. */
  datatype Found = Found(pos: nat, group: Group)

  /** The outcome of trying pat at each position 0..|text|. */
  function Captures(pat: Pattern, text: string): (r: seq<Option<Group>>)
    ensures |r| == |text| + 1
  {
    seq(|text| + 1, p requires 0 <= p <= |text| => CaptureAt(pat, text, p))
  }

  /** The scan of `re.search` from position p: the first position p' >= p
      where a match was found. */
  function LeftmostFrom(caps: seq<Option<Group>>, p: nat): (r: Option<Found>)
    requires p <= |caps|
    ensures r.Some? ==> p <= r.value.pos < |caps| && caps[r.value.pos] == Some(r.value.group)
    decreases |caps| - p
  {
    if p == |caps| then None
    else
      match caps[p]
      case Some(g) => Some(Found(p, g))
      case None => LeftmostFrom(caps, p + 1)
  }

  /** The scan stops at the first match: no position it passed over had one. */
  lemma {:induction false} LeftmostFromSkips(caps: seq<Option<Group>>, p: nat, p': nat)
    requires p <= |caps| && LeftmostFrom(caps, p).Some?
    requires p <= p' < LeftmostFrom(caps, p).value.pos
    ensures caps[p'].None?
    decreases |caps| - p
  {
    if p < p' {
      LeftmostFromSkips(caps, p + 1, p');
    }
  }

  /** The scan misses no match: if there is one at some p' >= p, the scan
      succeeds, at p' or earlier. */
  lemma {:induction false} LeftmostFromFinds(caps: seq<Option<Group>>, p: nat, p': nat)
    requires p <= p' < |caps| && caps[p'].Some?
    ensures LeftmostFrom(caps, p).Some? && LeftmostFrom(caps, p).value.pos <= p'
    decreases |caps| - p
  {
    if p < p' && caps[p].None? {
      LeftmostFromFinds(caps, p + 1, p');
    }
  }

  /** `re.search(pat, text)`. */
  function Search(pat: Pattern, text: string): (r: Option<Found>)
    ensures r.Some? ==> r.value.pos <= |text| && CaptureAt(pat, text, r.value.pos) == Some(r.value.group)
  {
    LeftmostFrom(Captures(pat, text), 0)
  }

  /** `re.search` succeeds exactly when the pattern matches somewhere, and
      then at the leftmost such position. */
  lemma SearchIsLeftmost(pat: Pattern, text: string)
    ensures Search(pat, text).None? <==> forall p | 0 <= p <= |text| :: CaptureAt(pat, text, p).None?
    ensures Search(pat, text).Some? ==>
      forall p | 0 <= p < Search(pat, text).value.pos :: CaptureAt(pat, text, p).None?
  {
    var caps := Captures(pat, text);
    if p :| 0 <= p <= |text| && CaptureAt(pat, text, p).Some? {
      assert caps[p] == CaptureAt(pat, text, p);
      LeftmostFromFinds(caps, 0, p);
    }
    if Search(pat, text).Some? {
      forall p | 0 <= p < Search(pat, text).value.pos ensures CaptureAt(pat, text, p).None? {
        LeftmostFromSkips(caps, 0, p);
        assert caps[p] == CaptureAt(pat, text, p);
      }
    }
  }

  /** The scan from k reaches the first match at or after k. */
  lemma {:induction false} LeftmostFromAt(caps: seq<Option<Group>>, k: nat, p: nat, g: Group)
    requires k <= p < |caps| && caps[p] == Some(g)
    requires forall q | k <= q < p :: caps[q].None?
    ensures LeftmostFrom(caps, k) == Some(Found(p, g))
    decreases p - k
  {
    if k < p {
      LeftmostFromAt(caps, k + 1, p, g);
    }
  }

  /** A match at p with none before it is what `re.search` returns. */
  lemma SearchAt(pat: Pattern, text: string, p: nat, g: Group)
    requires p <= |text| && CaptureAt(pat, text, p) == Some(g)
    requires forall q | 0 <= q < p :: CaptureAt(pat, text, q).None?
    ensures Search(pat, text) == Some(Found(p, g))
  {
    var caps := Captures(pat, text);
    forall q | 0 <= q < p ensures caps[q].None? {
      assert caps[q] == CaptureAt(pat, text, q);
    }
    assert caps[p] == CaptureAt(pat, text, p);
    LeftmostFromAt(caps, 0, p, g);
  }

  /** Where `str.strip()` cuts the back of s[a..j]: the end of s[a..j] once
      its trailing whitespace is dropped. */
  function TrimEnd(s: string, a: nat, j: nat): (b: nat)
    requires a <= j <= |s|
    ensures a <= b <= j && AllIn(s, b, j, Space)
    ensures b == a || !IsSpace(s[b - 1])
    decreases j
  {
    if a < j && IsSpace(s[j - 1]) then TrimEnd(s, a, j - 1) else j
  }

  /** `str.strip()`: what remains has no whitespace at either end, and only
      whitespace was removed. */
  function Strip(s: string): (r: string)
    ensures |r| <= |s|
    ensures r == [] || (!IsSpace(r[0]) && !IsSpace(r[|r| - 1]))
    ensures exists a, b | 0 <= a <= b <= |s| ::
      r == s[a..b] && AllIn(s, 0, a, Space) && AllIn(s, b, |s|, Space)
  {
    var a := RunEnd(s, 0, Space);
    var b := TrimEnd(s, a, |s|);
    assert a < b ==> s[a..b][0] == s[a] && s[a..b][b - a - 1] == s[b - 1];
    s[a..b]
  }

  /** Stripping leaves a string without whitespace at its ends unchanged. */
  lemma StripKeepsTrimmed(s: string)
    requires s == [] || (!IsSpace(s[0]) && !IsSpace(s[|s| - 1]))
    ensures Strip(s) == s
  {
  }

  /** `match.group(1).strip()` of a successful search. */
  function GroupText(text: string, f: Found): string
    requires f.group.start <= f.group.end <= |text|
  {
    Strip(text[f.group.start..f.group.end])
  }

  /** `search_patterns`: the stripped group 1 of the first pattern in list
      order that matches anywhere in the text. */
  function FirstMatch(patterns: seq<Pattern>, text: string): Option<string> {
    if patterns == [] then None
    else
      match Search(patterns[0], text)
      case Some(f) => Some(GroupText(text, f))
      case None => FirstMatch(patterns[1..], text)
  }

  /** `search_patterns` returns None exactly when every pattern fails. */
  lemma {:induction false} FirstMatchNoneIff(patterns: seq<Pattern>, text: string)
    ensures FirstMatch(patterns, text).None? <==> forall i | 0 <= i < |patterns| :: Search(patterns[i], text).None?
  {
    if patterns != [] && Search(patterns[0], text).None? {
      FirstMatchNoneIff(patterns[1..], text);
      assert forall i | 1 <= i < |patterns| :: patterns[i] == patterns[1..][i - 1];
    }
  }

  /** The result is that of the first pattern that matches, all the earlier
      ones having failed. */
  lemma {:induction false} FirstMatchIsFirst(patterns: seq<Pattern>, text: string, i: nat)
    requires i < |patterns| && Search(patterns[i], text).Some?
    requires forall j | 0 <= j < i :: Search(patterns[j], text).None?
    ensures FirstMatch(patterns, text) == Some(GroupText(text, Search(patterns[i], text).value))
  {
    if i > 0 {
      assert patterns[1..][i - 1] == patterns[i];
      assert forall j | 0 <= j < i - 1 :: patterns[1..][j] == patterns[j + 1];
      FirstMatchIsFirst(patterns[1..], text, i - 1);
    }
  }

  /** `search_patterns` as written: a loop over the patterns that returns at
      the first one that matches. */
  method SearchPatterns(patterns: seq<Pattern>, textToSearch: string) returns (r: Option<string>)
    ensures r == FirstMatch(patterns, textToSearch)
  {
    for k := 0 to |patterns|
      invariant FirstMatch(patterns, textToSearch) == FirstMatch(patterns[k..], textToSearch)
    {
      assert patterns[k..][1..] == patterns[k + 1..];
      var m := Search(patterns[k], textToSearch);
      if m.Some? {
        return Some(GroupText(textToSearch, m.value));
      }
    }
    return None;
  }

  /** With a single pattern, `search_patterns` gives that pattern's stripped
      group 1, or None when it matches nowhere. */
  lemma FirstMatchOfOne(pat: Pattern, text: string)
    ensures FirstMatch([pat], text) == match Search(pat, text)
      case None => None
      case Some(f) => Some(GroupText(text, f))
  {
    assert [pat][0] == pat;
  }

  /** What a successful search for the invoice number found. */
  lemma SearchedInvoiceNumber(text: string, f: Found)
    requires Search(InvoiceNumber, text) == Some(f)
    ensures InvoiceNumberAt(text, f.pos) == Some(f.group)
  {
  }

  /** What a successful search for the date found. */
  lemma SearchedDate(text: string, f: Found)
    requires Search(InvoiceDate, text) == Some(f)
    ensures DateAt(text, f.pos) == Some(f.group)
  {
  }

  /** Group 1 of the invoice-number pattern is the value itself: a maximal
      run of letters and digits, with no whitespace for strip to remove. */
  lemma InvoiceGroup(text: string, p: nat, w: nat, e: nat)
    requires InvoiceNumberShape(text, p, w, e)
    ensures var v := text[w..e]; Strip(v) == v && |v| > 0 && AllIn(v, 0, |v|, Alnum)
  {
    var v := text[w..e];
    assert AllIn(v, 0, |v|, Alnum) by {
      forall i | 0 <= i < |v| ensures InClass(v[i], Alnum) {
        assert v[i] == text[w + i];
      }
    }
    StripKeepsTrimmed(v);
  }

  /** Group 1 of the date pattern is the value itself: it starts with a
      letter and ends with a digit, so strip removes nothing. */
  lemma DateGroup(text: string, p: nat, c: DateCut)
    requires DateShape(text, p, c)
    ensures var v := text[c.w1..c.y + 4]; Strip(v) == v && |v| > 0 && IsDigit(v[|v| - 1])
  {
    var v := text[c.w1..c.y + 4];
    assert v[0] == text[c.w1] && v[|v| - 1] == text[c.y + 3];
    StripKeepsTrimmed(v);
  }
}
