/** `extract_line_items`: every match of the MULTILINE pattern
    `^\d+\s+(.*?)\s+([\d,]+\.\d{2})$`, found by `findall` from left to right,
    becomes one line item with a whitespace-normalized description and an
    amount in cents; and the reconciled total, the sum of those amounts.

    Choices about the pattern, each as Python's `re` behaves:
    - `\s` includes the newline, so both whitespace runs may cross line
      breaks; only the description (`.`) stops at a newline.  A match may
      therefore begin on one line and end on a later one.
    - `^` holds at the start of the text and after each newline, `$` at the
      end of the text and before each newline (not before a CR).
    - The backtracking order decides the groups: the leading digits and the
      second whitespace run are always maximal, the first whitespace run is
      tried longest first, and the lazy description shortest first.  So the
      description may be empty (`"1  10.00"`), and the amount is the last
      token before the line end.
    - `[\d,]+` may consist of commas only (`",.00"` is 0 cents). */
module LineItems {
  import opened Chars
  import opened Money
  import opened Whitespace

  predicate IsLineStart(text: string, p: int) {
    0 <= p <= |text| && (p == 0 || text[p - 1] == '\n')
  }

  predicate IsLineEnd(text: string, p: int) {
    0 <= p <= |text| && (p == |text| || text[p] == '\n')
  }

  predicate NoNewline(text: string, i: int, j: int) {
    0 <= i <= j <= |text| && forall k | i <= k < j :: text[k] != '\n'
  }

  /** The positions of one way the pattern can match from p: digits
      text[p..d], whitespace text[d..e], description text[e..q], whitespace
      text[q..s], and the amount text[s..a + 3] whose point is at a. */
  datatype Cut = Cut(d: nat, e: nat, q: nat, s: nat, a: nat)

  /** `\s+([\d,]+\.\d{2})$` matches from q with these positions. */
  predicate TailShape(text: string, q: nat, s: nat, a: nat) {
    q < s && AllIn(text, q, s, Space)
    && s < a && AllIn(text, s, a, AmountChar)
    && a + 3 <= |text| && text[a] == '.' && IsDigit(text[a + 1]) && IsDigit(text[a + 2])
    && IsLineEnd(text, a + 3)
  }

  /** The whole pattern matches from p along the cut c. */
  predicate LineItemShape(text: string, p: nat, c: Cut) {
    IsLineStart(text, p)
    && p < c.d && AllIn(text, p, c.d, Digit)
    && c.d < c.e && AllIn(text, c.d, c.e, Space)
    && c.e <= c.q && NoNewline(text, c.e, c.q)
    && TailShape(text, c.q, c.s, c.a)
  }

  /** The cut the backtracking matcher reports among all those that match
      from p: the longest first whitespace run, then the shortest description. */
  ghost predicate Preferred(text: string, p: nat, c: Cut) {
    LineItemShape(text, p, c)
    && (forall c': Cut :: LineItemShape(text, p, c') ==> c'.e <= c.e)
    && (forall c': Cut :: LineItemShape(text, p, c') && c'.e == c.e ==> c.q <= c'.q)
  }

  datatype Tail = Tail(s: nat, a: nat)

  /** Matching `\s+([\d,]+\.\d{2})$` from q.  Both runs are maximal: a shorter
      whitespace run leaves whitespace where `[\d,]` is needed, and a shorter
      `[\d,]+` leaves a digit or comma where the point is needed. */
  function TailAt(text: string, q: nat): (r: Option<Tail>)
    requires q <= |text|
    ensures r.Some? ==> TailShape(text, q, r.value.s, r.value.a)
  {
    var s := RunEnd(text, q, Space);
    var a := RunEnd(text, s, AmountChar);
    if q < s && s < a && a + 3 <= |text| && text[a] == '.'
      && IsDigit(text[a + 1]) && IsDigit(text[a + 2]) && IsLineEnd(text, a + 3)
    then Some(Tail(s, a))
    else None
  }

  /** Whenever the tail matches from q, TailAt finds it, and with these very
      positions: the tail has only one way to match. */
  lemma TailAtFindsTail(text: string, q: nat, s: nat, a: nat)
    requires TailShape(text, q, s, a)
    ensures TailAt(text, q) == Some(Tail(s, a))
  {
    RunEndExact(text, q, s, Space);
    RunEndExact(text, s, a, AmountChar);
  }

  /** Whether the tail matches from each position 0..|text|. */
  function TailMarks(text: string): (r: seq<bool>)
    ensures |r| == |text| + 1
  {
    seq(|text| + 1, q requires 0 <= q <= |text| => TailAt(text, q).Some?)
  }

  /** The lazy `(.*?)` from q, given where the tail matches: the first end
      q' >= q, reached without crossing a newline, marked in marks. */
  function FirstMark(text: string, marks: seq<bool>, q: nat): (r: Option<nat>)
    requires |marks| == |text| + 1 && q <= |text|
    ensures r.Some? ==> q <= r.value && NoNewline(text, q, r.value) && marks[r.value]
    decreases |text| - q
  {
    if marks[q] then Some(q)
    else if q < |text| && text[q] != '\n' then FirstMark(text, marks, q + 1)
    else None
  }

  /** Whenever a marked position q' >= q lies on the same line, the lazy
      search succeeds, and stops no later than q'. */
  lemma {:induction false} FirstMarkFinds(text: string, marks: seq<bool>, q: nat, q': nat)
    requires |marks| == |text| + 1
    requires q <= q' && NoNewline(text, q, q') && marks[q']
    ensures FirstMark(text, marks, q).Some? && FirstMark(text, marks, q).value <= q'
    decreases q' - q
  {
    if q < q' && !marks[q] {
      assert text[q] != '\n';
      FirstMarkFinds(text, marks, q + 1, q');
    }
  }

  /** The lazy `(.*?)` from q: the first end q' >= q, reached without
      crossing a newline, after which the tail matches. */
  function LazyDescription(text: string, q: nat): (r: Option<nat>)
    requires q <= |text|
    ensures r.Some? ==> q <= r.value && NoNewline(text, q, r.value) && TailAt(text, r.value).Some?
  {
    var r := FirstMark(text, TailMarks(text), q);
    assert r.Some? ==> TailMarks(text)[r.value];
    r
  }

  /** Whenever the tail can match at some q' >= q on the same line, the lazy
      search succeeds, and stops no later than q'. */
  lemma LazyDescriptionFinds(text: string, q: nat, q': nat)
    requires q <= q' && NoNewline(text, q, q')
    requires TailAt(text, q').Some?
    ensures LazyDescription(text, q).Some? && LazyDescription(text, q).value <= q'
  {
    assert TailMarks(text)[q'];
    FirstMarkFinds(text, TailMarks(text), q, q');
  }

  /** The outcome of the lazy description search from each position. */
  function DescriptionEnds(text: string): (r: seq<Option<nat>>)
    ensures |r| == |text| + 1
  {
    seq(|text| + 1, q requires 0 <= q <= |text| => LazyDescription(text, q))
  }

  /** Backtracking the first `\s+` after the digits ending at d: its end e is
      tried from w, the end of the whitespace run, down to d + 1.  The result
      is the pair (e, q) of the first end e whose description search,
      recorded in ends, succeeds. */
  function FirstSpaceRun(ends: seq<Option<nat>>, d: nat, w: nat): (r: Option<(nat, nat)>)
    requires w < |ends|
    ensures r.Some? ==> d < r.value.0 <= w && ends[r.value.0] == Some(r.value.1)
    decreases w
  {
    if w <= d then None
    else
      match ends[w]
      case Some(q) => Some((w, q))
      case None => FirstSpaceRun(ends, d, w - 1)
  }

  /** FirstSpaceRun fails only when no first whitespace run can be followed
      by a description and a tail. */
  lemma {:induction false} FirstSpaceRunFindsSome(ends: seq<Option<nat>>, d: nat, w: nat, e: nat)
    requires w < |ends| && d < e <= w
    requires ends[e].Some?
    ensures FirstSpaceRun(ends, d, w).Some?
    decreases w
  {
    if e < w && ends[w].None? {
      FirstSpaceRunFindsSome(ends, d, w - 1, e);
    }
  }

  /** FirstSpaceRun commits to the longest first whitespace run after which a
      description and a tail can follow. */
  lemma {:induction false} FirstSpaceRunIsLongest(ends: seq<Option<nat>>, d: nat, w: nat)
    requires w < |ends|
    requires FirstSpaceRun(ends, d, w).Some?
    ensures forall e' | FirstSpaceRun(ends, d, w).value.0 < e' <= w :: ends[e'].None?
    decreases w
  {
    if w > d && ends[w].None? {
      FirstSpaceRunIsLongest(ends, d, w - 1);
    }
  }

  /** One match as `findall` reports it: where it starts and ends, and its
      two groups. */
  datatype RawMatch = RawMatch(start: nat, desc: string, amount: AmountText, end: nat)

  /** The amount group of a tail is an amount. */
  lemma TailAmount(text: string, q: nat, s: nat, a: nat)
    requires TailShape(text, q, s, a)
    ensures AmountShape(text[s..a + 3])
  {
    var amount := text[s..a + 3];
    forall i | 0 <= i < |amount| - 3 ensures InClass(amount[i], AmountChar) {
      assert amount[i] == text[s + i];
    }
  }

  function FromCut(text: string, p: nat, c: Cut): (m: RawMatch)
    requires LineItemShape(text, p, c)
  {
    TailAmount(text, c.q, c.s, c.a);
    RawMatch(p, text[c.e..c.q], text[c.s..c.a + 3], c.a + 3)
  }

  /** The cut along which the pattern matches from p, if it does. */
  function CutAt(text: string, p: nat): (r: Option<Cut>)
    ensures r.Some? ==> LineItemShape(text, p, r.value)
  {
    if !IsLineStart(text, p) then None
    else
      var d := RunEnd(text, p, Digit);
      var w := RunEnd(text, d, Space);
      if d == p then None
      else
        match FirstSpaceRun(DescriptionEnds(text), d, w)
        case None => None
        case Some((e, q)) =>
          assert LazyDescription(text, e) == Some(q);
          var t := TailAt(text, q).value;
          Some(Cut(d, e, q, t.s, t.a))
  }

  /** The match of the pattern anchored at position p, if any. */
  function MatchAt(text: string, p: nat): (r: Option<RawMatch>)
    ensures r.Some? ==> r.value.start == p < r.value.end <= |text|
  {
    match CutAt(text, p)
    case None => None
    case Some(c) => Some(FromCut(text, p, c))
  }

  /** Any cut that matches from p uses the maximal digit run, its first
      whitespace run lies inside the maximal whitespace run after the digits,
      and a description search from its end succeeds. */
  lemma ShapeRuns(text: string, p: nat, c: Cut)
    requires LineItemShape(text, p, c)
    ensures c.d == RunEnd(text, p, Digit)
    ensures c.e <= RunEnd(text, c.d, Space)
    ensures LazyDescription(text, c.e).Some?
  {
    RunEndExact(text, p, c.d, Digit);
    RunEndExact(text, c.d, c.e, Space);
    TailAtFindsTail(text, c.q, c.s, c.a);
    LazyDescriptionFinds(text, c.e, c.q);
  }

  /** Whenever the pattern can match from p, MatchAt finds a match there. */
  lemma MatchAtComplete(text: string, p: nat, c: Cut)
    requires LineItemShape(text, p, c)
    ensures MatchAt(text, p).Some?
  {
    ShapeRuns(text, p, c);
    var d := RunEnd(text, p, Digit);
    var w := RunEnd(text, d, Space);
    assert DescriptionEnds(text)[c.e] == LazyDescription(text, c.e);
    FirstSpaceRunFindsSome(DescriptionEnds(text), d, w, c.e);
  }

  /** The pattern matches from p exactly when MatchAt reports a match there. */
  lemma MatchAtIff(text: string, p: nat)
    ensures MatchAt(text, p).Some? <==> exists c: Cut :: LineItemShape(text, p, c)
  {
    if c: Cut :| LineItemShape(text, p, c) {
      MatchAtComplete(text, p, c);
    } else if MatchAt(text, p).Some? {
      assert LineItemShape(text, p, CutAt(text, p).value);
    }
  }

  /** Among all the ways the pattern can match from p, MatchAt reports the
      one the backtracking order reaches first: the longest first whitespace
      run, and after it the shortest description. */
  lemma MatchAtIsPreferred(text: string, p: nat)
    requires MatchAt(text, p).Some?
    ensures Preferred(text, p, CutAt(text, p).value)
    ensures MatchAt(text, p) == Some(FromCut(text, p, CutAt(text, p).value))
  {
    var best := CutAt(text, p).value;
    var d := RunEnd(text, p, Digit);
    var w := RunEnd(text, d, Space);
    var ends := DescriptionEnds(text);
    var (e, q) := FirstSpaceRun(ends, d, w).value;
    assert best.e == e && best.q == q;
    assert LazyDescription(text, e) == Some(q);
    FirstSpaceRunIsLongest(ends, d, w);
    forall c': Cut | LineItemShape(text, p, c')
      ensures c'.e <= e
      ensures c'.e == e ==> q <= c'.q
    {
      ShapeRuns(text, p, c');
      assert ends[c'.e] == LazyDescription(text, c'.e);
      if c'.e == e {
        TailAtFindsTail(text, c'.q, c'.s, c'.a);
        LazyDescriptionFinds(text, e, c'.q);
      }
    }
  }

  /** What a match reports: it starts at a line beginning with a digit, its
      description has no newline, its amount is the text just before the end
      of a line, and that text ends in a point and two digits. */
  predicate Reported(text: string, m: RawMatch) {
    IsLineStart(text, m.start) && m.start < |text| && IsDigit(text[m.start])
    && IsLineEnd(text, m.end) && m.start + 7 <= m.end
    && text[m.end - 3] == '.' && IsDigit(text[m.end - 2]) && IsDigit(text[m.end - 1])
    && |m.amount| <= m.end && m.amount == text[m.end - |m.amount|..m.end]
    && forall i | 0 <= i < |m.desc| :: m.desc[i] != '\n'
  }

  lemma FromCutReported(text: string, p: nat, c: Cut)
    requires LineItemShape(text, p, c)
    ensures FromCut(text, p, c).start == p && Reported(text, FromCut(text, p, c))
  {
    var m := FromCut(text, p, c);
    assert IsDigit(text[p]);
    forall i | 0 <= i < |m.desc| ensures m.desc[i] != '\n' {
      assert m.desc[i] == text[c.e + i];
    }
  }

  lemma MatchAtReported(text: string, p: nat)
    requires MatchAt(text, p).Some?
    ensures Reported(text, MatchAt(text, p).value)
  {
    var c := CutAt(text, p).value;
    assert MatchAt(text, p) == Some(FromCut(text, p, c));
    FromCutReported(text, p, c);
  }

  /** The outcome of trying the pattern at each position 0..|text|, where a
      match found at p starts at p and ends inside the text. */
  predicate Anchored(cands: seq<Option<RawMatch>>) {
    forall p | 0 <= p < |cands| && cands[p].Some? ::
      cands[p].value.start == p < cands[p].value.end < |cands|
  }

  /** The scan of `findall` from position pos: after a match it resumes at
      the match's end, otherwise at the next position. */
  function ScanFrom(cands: seq<Option<RawMatch>>, pos: nat): seq<RawMatch>
    requires Anchored(cands)
    decreases |cands| - pos
  {
    if pos >= |cands| then []
    else
      match cands[pos]
      case Some(m) => [m] + ScanFrom(cands, m.end)
      case None => ScanFrom(cands, pos + 1)
  }

  /** MatchAt at every position of the text, the end of the text included. */
  function Candidates(text: string): (r: seq<Option<RawMatch>>)
    ensures |r| == |text| + 1 && Anchored(r)
  {
    seq(|text| + 1, p requires 0 <= p <= |text| => MatchAt(text, p))
  }

  /** `pattern.findall(text)`, as the matches themselves. */
  function FindAll(text: string): seq<RawMatch> {
    ScanFrom(Candidates(text), 0)
  }

  /** Position p lies inside the span of one of the matches. */
  ghost predicate Covered(ms: seq<RawMatch>, p: nat) {
    exists i :: 0 <= i < |ms| && ms[i].start <= p < ms[i].end
  }

  /** Every match the scan reports from pos onwards is the match found at its
      own start, which is pos or later. */
  lemma {:induction false} ScanSound(cands: seq<Option<RawMatch>>, pos: nat)
    requires Anchored(cands)
    ensures forall m | m in ScanFrom(cands, pos) :: pos <= m.start < |cands| && cands[m.start] == Some(m)
    decreases |cands| - pos
  {
    if pos < |cands| {
      match cands[pos]
      case Some(m) =>
        var rest := ScanFrom(cands, m.end);
        ScanSound(cands, m.end);
        forall x | x in [m] + rest
          ensures pos <= x.start < |cands| && cands[x.start] == Some(x)
        {
          if x != m {
            assert x in rest;
          }
        }
      case None =>
        ScanSound(cands, pos + 1);
    }
  }

  /** The scan reports matches in text order, without overlaps. */
  lemma {:induction false} ScanOrdered(cands: seq<Option<RawMatch>>, pos: nat)
    requires Anchored(cands)
    ensures forall i, j | 0 <= i < j < |ScanFrom(cands, pos)| ::
      ScanFrom(cands, pos)[i].end <= ScanFrom(cands, pos)[j].start
    decreases |cands| - pos
  {
    if pos < |cands| {
      match cands[pos]
      case Some(m) =>
        ScanOrdered(cands, m.end);
        ScanSound(cands, m.end);
        var rest := ScanFrom(cands, m.end);
        var ms := [m] + rest;
        forall i, j | 0 <= i < j < |ms| ensures ms[i].end <= ms[j].start {
          if i == 0 {
            assert ms[j] == rest[j - 1];
            assert ms[j] in rest;
          } else {
            assert ms[i] == rest[i - 1] && ms[j] == rest[j - 1];
          }
        }
      case None =>
        ScanOrdered(cands, pos + 1);
    }
  }

  /** The scan misses nothing: every position from pos onwards where a match
      was found lies inside a reported match. */
  lemma {:induction false} ScanCovers(cands: seq<Option<RawMatch>>, pos: nat, p: nat)
    requires Anchored(cands)
    requires pos <= p < |cands| && cands[p].Some?
    ensures Covered(ScanFrom(cands, pos), p)
    decreases |cands| - pos
  {
    match cands[pos]
    case Some(m) =>
      var rest := ScanFrom(cands, m.end);
      var ms := [m] + rest;
      if p < m.end {
        assert ms[0].start <= p < ms[0].end;
      } else {
        ScanCovers(cands, m.end, p);
        var i :| 0 <= i < |rest| && rest[i].start <= p < rest[i].end;
        assert ms[i + 1] == rest[i];
      }
    case None =>
      assert p != pos;
      ScanCovers(cands, pos + 1, p);
  }

  /** Every match `findall` reports is the match MatchAt finds at its start. */
  lemma FindAllSound(text: string)
    ensures forall m | m in FindAll(text) :: MatchAt(text, m.start) == Some(m)
  {
    var cands := Candidates(text);
    ScanSound(cands, 0);
    forall m | m in FindAll(text) ensures MatchAt(text, m.start) == Some(m) {
      assert cands[m.start] == MatchAt(text, m.start);
    }
  }

  /** The matches `findall` reports lie in the text one after the other. */
  lemma FindAllOrdered(text: string)
    ensures forall i, j | 0 <= i < j < |FindAll(text)| :: FindAll(text)[i].end <= FindAll(text)[j].start
  {
    ScanOrdered(Candidates(text), 0);
  }

  /** Every position where the pattern matches lies inside a reported match. */
  lemma FindAllCovers(text: string, p: nat)
    requires p <= |text| && MatchAt(text, p).Some?
    ensures Covered(FindAll(text), p)
  {
    var cands := Candidates(text);
    assert cands[p] == MatchAt(text, p);
    ScanCovers(cands, 0, p);
  }

  /** `findall` returns nothing exactly when the pattern matches nowhere. */
  lemma FindAllEmptyIff(text: string)
    ensures FindAll(text) == [] <==> forall p: nat | p <= |text| :: MatchAt(text, p).None?
  {
    var ms := FindAll(text);
    if ms != [] {
      FindAllSound(text);
      assert ms[0] in ms;
      assert MatchAt(text, ms[0].start).Some?;
    } else {
      forall p: nat | p <= |text| ensures MatchAt(text, p).None? {
        if MatchAt(text, p).Some? {
          FindAllCovers(text, p);
        }
      }
    }
  }

  /** Each match `findall` reports has the shape of the pattern. */
  lemma FindAllReported(text: string, i: nat)
    requires i < |FindAll(text)|
    ensures Reported(text, FindAll(text)[i])
  {
    var m := FindAll(text)[i];
    FindAllSound(text);
    assert m in FindAll(text);
    MatchAtReported(text, m.start);
  }

  /** One extracted row: the normalized description and the amount in cents. */
  datatype LineItem = LineItem(description: string, amount: nat)

  /** The row for one match: its description keeps the matched words, in
      order, in normal form, and its amount is what the amount's digits spell. */
  function ToItem(m: RawMatch): (item: LineItem)
    ensures IsNormalized(item.description) && Words(item.description) == Words(m.desc)
    ensures item.amount == DigitsValue(DigitsOf(m.amount))
  {
    NormalizeKeepsWords(m.desc);
    ParseAmountIsItsDigits(m.amount);
    LineItem(Normalize(m.desc), ParseAmount(m.amount))
  }

  /** One item per match, in order. */
  function ItemsOf(ms: seq<RawMatch>): (items: seq<LineItem>)
    ensures |items| == |ms|
  {
    seq(|ms|, i requires 0 <= i < |ms| => ToItem(ms[i]))
  }

  /** The list `extract_line_items` returns for text, one item per match. */
  function LineItemsOf(text: string): (items: seq<LineItem>)
    ensures |items| == |FindAll(text)|
    ensures items == [] <==> forall p: nat | p <= |text| :: MatchAt(text, p).None?
  {
    FindAllEmptyIff(text);
    ItemsOf(FindAll(text))
  }

  /** The loop of `extract_line_items` over the matches: each match appends
      one item, its description normalized and its amount parsed. */
  method CollectItems(matches: seq<RawMatch>) returns (lineItems: seq<LineItem>)
    ensures |lineItems| == |matches|
    ensures forall i | 0 <= i < |matches| ::
      lineItems[i].description == Normalize(matches[i].desc)
      && lineItems[i].amount == ParseAmount(matches[i].amount)
    ensures lineItems == ItemsOf(matches)
  {
    lineItems := [];
    for i := 0 to |matches|
      invariant |lineItems| == i
      invariant forall j | 0 <= j < i :: lineItems[j] == ToItem(matches[j])
    {
      var description := Normalize(matches[i].desc);
      var amount := ParseAmount(matches[i].amount);
      lineItems := lineItems + [LineItem(description, amount)];
    }
  }

  /** `extract_line_items`: the matches of `findall`, in order, each turned
      into one item. */
  method ExtractLineItems(text: string) returns (lineItems: seq<LineItem>)
    ensures lineItems == LineItemsOf(text)
  {
    var matches := FindAll(text);
    lineItems := CollectItems(matches);
  }

  /** The extracted items, in order, are those of the matches `findall`
      reports, which lie in the text one after the other; and there are none
      exactly when the pattern matches nowhere. */
  lemma LineItemsInTextOrder(text: string)
    ensures |LineItemsOf(text)| == |FindAll(text)|
    ensures forall m | m in FindAll(text) :: MatchAt(text, m.start) == Some(m)
    ensures forall i | 0 <= i < |FindAll(text)| :: LineItemsOf(text)[i] == ToItem(FindAll(text)[i])
    ensures forall i, j | 0 <= i < j < |FindAll(text)| :: FindAll(text)[i].end <= FindAll(text)[j].start
    ensures LineItemsOf(text) == [] <==> forall p: nat | p <= |text| :: MatchAt(text, p).None?
  {
    FindAllSound(text);
    FindAllOrdered(text);
    FindAllEmptyIff(text);
  }

  /** Each item's description is normalized, and its amount is the amount
      text of its match read with the commas ignored; that text sits in the
      input right before the end of a line. */
  lemma LineItemContents(text: string, i: nat)
    requires i < |LineItemsOf(text)|
    ensures IsNormalized(LineItemsOf(text)[i].description)
    ensures LineItemsOf(text)[i].amount == DigitsValue(DigitsOf(FindAll(text)[i].amount))
    ensures var m := FindAll(text)[i];
      IsLineEnd(text, m.end) && |m.amount| <= m.end
      && m.amount == text[m.end - |m.amount|..m.end]
  {
    var m := FindAll(text)[i];
    FindAllReported(text, i);
    ParseAmountIsItsDigits(m.amount);
  }

  /** No item ends on a line whose last character is not a digit: text after
      the two decimals (a trailing space, `EXTRA`) stops a match there. */
  lemma NoItemEndsAfterTrailingText(text: string, i: nat)
    requires i < |FindAll(text)|
    ensures var m := FindAll(text)[i];
      IsLineEnd(text, m.end) && m.end > 0 && IsDigit(text[m.end - 1])
  {
    FindAllReported(text, i);
  }

  /** A single line that ends in something other than a digit yields no item. */
  lemma OneLineWithTrailingTextHasNoItems(text: string)
    requires '\n' !in text
    requires text == [] || !IsDigit(text[|text| - 1])
    ensures LineItemsOf(text) == []
  {
    var ms := FindAll(text);
    if |ms| > 0 {
      NoItemEndsAfterTrailingText(text, 0);
    }
    assert |LineItemsOf(text)| == |ms|;
  }

  /** A match starts at the beginning of a line with a digit: text whose line
      beginnings are never digits yields no item. */
  lemma NoItemsWithoutLeadingDigits(text: string)
    requires forall p: nat | IsLineStart(text, p) && p < |text| :: !IsDigit(text[p])
    ensures LineItemsOf(text) == []
  {
    if |FindAll(text)| > 0 {
      FindAllReported(text, 0);
    }
  }

  /** On a line without newlines, a tail always ends at the end of the text. */
  lemma TailEndsText(text: string, q: nat, s: nat, a: nat)
    requires '\n' !in text && TailShape(text, q, s, a)
    ensures a + 3 == |text|
  {
  }

  /** A tail cannot start before a character that is neither whitespace nor
      a digit or comma, when it reaches past that character. */
  lemma TailNotAcross(text: string, q: nat, s: nat, a: nat, k: nat)
    requires TailShape(text, q, s, a) && q <= k < a
    ensures IsSpace(text[k]) || InClass(text[k], AmountChar)
  {
    if k < s {
      assert InClass(text[k], Space);
    } else {
      assert InClass(text[k], AmountChar);
    }
  }

  /** The cut of a one-line text made of a single item line, when the
      description starts and ends with a character that can be neither
      whitespace nor part of an amount. */
  lemma SingleLineCut(text: string, c: Cut)
    requires '\n' !in text && LineItemShape(text, 0, c)
    requires c.e < c.q && !IsSpace(text[c.e])
    requires !IsSpace(text[c.q - 1]) && !InClass(text[c.q - 1], AmountChar)
    ensures MatchAt(text, 0) == Some(FromCut(text, 0, c))
  {
    MatchAtComplete(text, 0, c);
    MatchAtIsPreferred(text, 0);
    var best := CutAt(text, 0).value;
    ShapeRuns(text, 0, best);
    RunEndExact(text, c.d, c.e, Space);
    assert best.e == c.e;
    TailEndsText(text, best.q, best.s, best.a);
    TailEndsText(text, c.q, c.s, c.a);
    if best.q < c.q {
      TailNotAcross(text, best.q, best.s, best.a, c.q - 1);
    }
    assert best.q == c.q;
    TailAtFindsTail(text, c.q, c.s, c.a);
    TailAtFindsTail(text, best.q, best.s, best.a);
    assert best == c;
  }

  /** A scan whose first candidate reaches the last position, where there is
      none, reports that candidate alone. */
  lemma ScanOne(cands: seq<Option<RawMatch>>, m: RawMatch)
    requires Anchored(cands) && |cands| > 0
    requires cands[0] == Some(m) && m.end == |cands| - 1 && cands[m.end].None?
    ensures ScanFrom(cands, 0) == [m]
  {
    assert ScanFrom(cands, m.end) == ScanFrom(cands, m.end + 1) == [];
  }

  /** `findall` on a one-line text that is a single item line. */
  lemma SingleLineFindAll(text: string, c: Cut)
    requires '\n' !in text && LineItemShape(text, 0, c) && c.a + 3 == |text|
    requires c.e < c.q && !IsSpace(text[c.e])
    requires !IsSpace(text[c.q - 1]) && !InClass(text[c.q - 1], AmountChar)
    ensures FindAll(text) == [FromCut(text, 0, c)]
  {
    SingleLineCut(text, c);
    var cands := Candidates(text);
    assert cands[0] == MatchAt(text, 0);
    assert cands[|text|] == MatchAt(text, |text|);
    ScanOne(cands, FromCut(text, 0, c));
  }

  /** The items of a text on which `findall` reports a single match. */
  lemma ItemsOfOneMatch(text: string, m: RawMatch)
    requires FindAll(text) == [m]
    ensures LineItemsOf(text) == [ToItem(m)]
  {
  }

  /** The groups of the match along a cut. */
  lemma FromCutGroups(text: string, p: nat, c: Cut)
    requires LineItemShape(text, p, c)
    ensures FromCut(text, p, c).desc == text[c.e..c.q]
    ensures FromCut(text, p, c).amount == text[c.s..c.a + 3]
  {
  }

  /** A one-line text that is a single item line yields exactly that item:
      its description normalized, and its amount read from its digits. */
  lemma SingleLineItem(text: string, c: Cut)
    requires '\n' !in text && LineItemShape(text, 0, c) && c.a + 3 == |text|
    requires c.e < c.q && !IsSpace(text[c.e])
    requires !IsSpace(text[c.q - 1]) && !InClass(text[c.q - 1], AmountChar)
    ensures |LineItemsOf(text)| == 1
    ensures LineItemsOf(text)[0].description == Normalize(text[c.e..c.q])
    ensures LineItemsOf(text)[0].amount == DigitsValue(DigitsOf(text[c.s..|text|]))
  {
    var m := FromCut(text, 0, c);
    SingleLineFindAll(text, c);
    ItemsOfOneMatch(text, m);
    FromCutGroups(text, 0, c);
    ParseAmountIsItsDigits(m.amount);
  }

  /** Any one-line text on which the pattern matches at its start yields
      exactly that one match, whatever its description (empty, or ending in
      digits or commas) and however wide its whitespace runs. */
  lemma SingleLineMatch(text: string)
    requires '\n' !in text && MatchAt(text, 0).Some?
    ensures FindAll(text) == [MatchAt(text, 0).value]
    ensures LineItemsOf(text) == [ToItem(MatchAt(text, 0).value)]
  {
    var c := CutAt(text, 0).value;
    TailEndsText(text, c.q, c.s, c.a);
    var m := MatchAt(text, 0).value;
    var cands := Candidates(text);
    assert cands[0] == MatchAt(text, 0);
    assert cands[|text|] == MatchAt(text, |text|);
    assert !IsLineStart(text, |text|) by {
      assert text[|text| - 1] in text;
    }
    ScanOne(cands, m);
  }

  /** The reconciled total: the sum of the items' amounts. */
  function TotalCents(items: seq<LineItem>): nat {
    if items == [] then 0 else items[0].amount + TotalCents(items[1..])
  }

  /** The total of a concatenation is the sum of the totals. */
  lemma {:induction false} TotalCentsAppend(a: seq<LineItem>, b: seq<LineItem>)
    ensures TotalCents(a + b) == TotalCents(a) + TotalCents(b)
  {
    if a == [] {
      assert a + b == b;
    } else {
      assert (a + b)[1..] == a[1..] + b;
      TotalCentsAppend(a[1..], b);
    }
  }

  /** The total is zero exactly when every amount is zero, the empty list
      included; otherwise it is positive. */
  lemma {:induction false} TotalCentsZeroIff(items: seq<LineItem>)
    ensures TotalCents(items) == 0 <==> forall i | 0 <= i < |items| :: items[i].amount == 0
  {
    if items != [] {
      TotalCentsZeroIff(items[1..]);
      if TotalCents(items) == 0 {
        forall i | 0 <= i < |items| ensures items[i].amount == 0 {
          if i > 0 { assert items[i] == items[1..][i - 1]; }
        }
      } else {
        assert forall i | 0 <= i < |items| - 1 :: items[1..][i] == items[i + 1];
      }
    }
  }

  /** Every amount is part of the total. */
  lemma {:induction false} TotalCentsBoundsItems(items: seq<LineItem>, i: nat)
    requires i < |items|
    ensures items[i].amount <= TotalCents(items)
  {
    if i > 0 {
      TotalCentsBoundsItems(items[1..], i - 1);
    }
  }
}
