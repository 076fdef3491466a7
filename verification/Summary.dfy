/** The test summary posted as a comment, which has to stay under a number of characters. */
module Summary {

  function Joined(separator: string, items: seq<string>): string {
    if items == [] then ""
    else if |items| == 1 then items[0]
    else Joined(separator, items[..|items| - 1]) + separator + items[|items| - 1]
  }

  /** Length of the items, each with `extra` characters after it. */
  function Size(items: seq<string>, extra: nat): nat {
    if items == [] then 0 else Size(items[..|items| - 1], extra) + |items[|items| - 1]| + extra
  }

  /** The items joined and followed by the separator once more, or nothing at all. */
  function Section(separator: string, items: seq<string>): string {
    if items == [] then "" else Joined(separator, items) + separator
  }

  lemma {:induction false} SectionSize(separator: string, items: seq<string>)
    ensures |Section(separator, items)| == Size(items, |separator|)
  {
    if |items| == 1 {
      assert Size(items[..0], |separator|) == 0;
    } else if items != [] {
      SectionSize(separator, items[..|items| - 1]);
    }
  }

  // ---------------------------------------------------------------- what is kept

  /** How many items fit, taken in order until one does not. */
  function Kept(items: seq<string>, extra: nat, used: nat, budget: nat): (n: nat)
    ensures n <= |items|
    decreases |items|
  {
    if items == [] || used + |items[0]| + extra > budget then 0
    else 1 + Kept(items[1..], extra, used + |items[0]| + extra, budget)
  }

  lemma {:induction false} SizeCons(items: seq<string>, extra: nat, n: nat)
    requires 0 < n <= |items|
    ensures Size(items[..n], extra) == |items[0]| + extra + Size(items[1..][..n - 1], extra)
  {
    assert items[..n][..n - 1] == items[..n - 1];
    if n > 1 {
      SizeCons(items, extra, n - 1);
      assert items[1..][..n - 1][..n - 2] == items[1..][..n - 2];
    }
  }

  /** The kept items are the longest prefix that fits. */
  lemma {:induction false} KeptIsLongestPrefix(items: seq<string>, extra: nat, used: nat, budget: nat)
    requires used <= budget
    ensures
      var n := Kept(items, extra, used, budget);
      && used + Size(items[..n], extra) <= budget
      && (n < |items| ==> used + Size(items[..n + 1], extra) > budget)
    decreases |items|
  {
    if items != [] {
      SizeCons(items, extra, 1);
      if used + |items[0]| + extra <= budget {
        var more := used + |items[0]| + extra;
        KeptIsLongestPrefix(items[1..], extra, more, budget);
        var n := Kept(items[1..], extra, more, budget);
        SizeCons(items, extra, n + 1);
        if n + 1 < |items| {
          SizeCons(items, extra, n + 2);
        }
      }
    }
  }

  lemma {:induction false} SizeGrows(items: seq<string>, extra: nat, n: nat)
    requires n <= |items|
    ensures Size(items[..n], extra) + (|items| - n) * extra <= Size(items, extra)
  {
    if n == |items| {
      assert items[..n] == items;
    } else {
      SizeGrows(items[..|items| - 1], extra, n);
      assert items[..|items| - 1][..n] == items[..n];
    }
  }

  // ---------------------------------------------------------------- the footer

  function Digit(d: nat): char
    requires d < 10
  {
    "0123456789"[d]
  }

  function Decimal(n: nat): string {
    if n < 10 then [Digit(n)] else Decimal(n / 10) + [Digit(n % 10)]
  }

  function Shown(n: int): string {
    if n < 0 then "-" + Decimal(-n) else Decimal(n)
  }

  /** The footer's fixed words. */
  datatype Wording = Wording(
    opening: string, failures: string, rows: string, conjunction: string, limit: string, ending: string)

  const WORDING := Wording(
    "\n_... ", " failure detail block(s) omitted", " additional test row(s) omitted", " and ",
    " to keep the summary under ", " characters. See the workflow run page for the full list._\n")

  const HEADROOM: nat := 240

  const MOST_DIGITS: nat := 80

  /** The words leave room for the numbers. */
  predicate Fitting(w: Wording) {
    |w.opening| + |w.failures| + |w.rows| + |w.conjunction| + |w.limit| + |w.ending| + MOST_DIGITS <= HEADROOM
  }

  lemma {:induction false} WordingFits()
    ensures Fitting(WORDING)
  {
    assert |WORDING.opening| == 6 && |WORDING.failures| == 32 && |WORDING.rows| == 31;
    assert |WORDING.conjunction| == 5 && |WORDING.limit| == 27 && |WORDING.ending| == 59;
  }

  function Notes(w: Wording, omittedFailures: nat, omittedRows: nat): seq<string> {
    (if omittedFailures > 0 then [Shown(omittedFailures) + w.failures] else [])
    + if omittedRows > 0 then [Shown(omittedRows) + w.rows] else []
  }

  function Footer(w: Wording, omittedFailures: nat, omittedRows: nat, maxChars: int): string {
    w.opening + Joined(w.conjunction, Notes(w, omittedFailures, omittedRows)) + w.limit + Shown(maxChars) + w.ending
  }

  lemma {:induction false} NotesSize(w: Wording, omittedFailures: nat, omittedRows: nat)
    ensures |Joined(w.conjunction, Notes(w, omittedFailures, omittedRows))|
         <= |Shown(omittedFailures)| + |w.failures| + |w.conjunction| + |Shown(omittedRows)| + |w.rows|
  {
    var notes := Notes(w, omittedFailures, omittedRows);
    if |notes| == 2 {
      assert notes[..1] == [notes[0]];
    }
  }

  /** The headroom is enough for any footer whose three numbers take at most eighty characters. */
  lemma {:induction false} FooterFitsHeadroom(w: Wording, omittedFailures: nat, omittedRows: nat, maxChars: int)
    requires Fitting(w)
    requires |Shown(omittedFailures)| + |Shown(omittedRows)| + |Shown(maxChars)| <= MOST_DIGITS
    ensures |Footer(w, omittedFailures, omittedRows, maxChars)| <= HEADROOM
  {
    NotesSize(w, omittedFailures, omittedRows);
  }

  // ---------------------------------------------------------------- the document

  datatype Document = Document(header: seq<string>, failures: seq<string>, tableHeader: seq<string>, rows: seq<string>)

  function Stats(d: Document): string {
    Joined("\n", d.header) + "\n"
  }

  function Heading(d: Document): string {
    if d.failures == [] then "" else "## Failures\n\n"
  }

  function TableHead(d: Document): string {
    Joined("\n", d.tableHeader) + "\n"
  }

  function FixedSize(d: Document): nat {
    |Stats(d)| + |Heading(d)| + |TableHead(d)|
  }

  function FullSize(d: Document): nat {
    FixedSize(d) + Size(d.failures, 2) + Size(d.rows, 1)
  }

  /** The document with the given failures and rows. */
  function Layout(d: Document, failures: seq<string>, rows: seq<string>): string {
    Stats(d) + Heading(d) + Section("\n\n", failures) + TableHead(d) + Section("\n", rows)
  }

  lemma {:induction false} LayoutSize(d: Document, failures: seq<string>, rows: seq<string>)
    ensures |Layout(d, failures, rows)| == FixedSize(d) + Size(failures, 2) + Size(rows, 1)
  {
    SectionSize("\n\n", failures);
    SectionSize("\n", rows);
  }

  function Budget(d: Document, maxChars: int): nat {
    if maxChars - FixedSize(d) - HEADROOM < 0 then 0 else maxChars - FixedSize(d) - HEADROOM
  }

  function KeptFailures(d: Document, maxChars: int): (n: nat)
    ensures n <= |d.failures|
  {
    if FullSize(d) <= maxChars then |d.failures| else Kept(d.failures, 2, 0, Budget(d, maxChars))
  }

  function KeptRows(d: Document, maxChars: int): (n: nat)
    ensures n <= |d.rows|
  {
    if FullSize(d) <= maxChars then |d.rows|
    else Kept(d.rows, 1, Size(d.failures[..KeptFailures(d, maxChars)], 2), Budget(d, maxChars))
  }

  predicate Truncates(d: Document, maxChars: int) {
    FullSize(d) > maxChars
  }

  function Cut(w: Wording, d: Document, failures: seq<string>, rows: seq<string>, maxChars: int): string
    requires |failures| <= |d.failures| && |rows| <= |d.rows|
  {
    Layout(d, failures, rows) + Footer(w, |d.failures| - |failures|, |d.rows| - |rows|, maxChars)
  }

  function Assembled(w: Wording, d: Document, maxChars: int): string {
    if !Truncates(d, maxChars) then Layout(d, d.failures, d.rows)
    else Cut(w, d, d.failures[..KeptFailures(d, maxChars)], d.rows[..KeptRows(d, maxChars)], maxChars)
  }

  lemma {:induction false} TruncatedIsCut(w: Wording, d: Document, maxChars: int)
    requires Truncates(d, maxChars)
    ensures Assembled(w, d, maxChars)
         == Cut(w, d, d.failures[..KeptFailures(d, maxChars)], d.rows[..KeptRows(d, maxChars)], maxChars)
  {
  }

  method Fill(items: seq<string>, extra: nat, used: nat, budget: nat) returns (kept: seq<string>, total: nat)
    ensures kept == items[..Kept(items, extra, used, budget)]
    ensures total == used + Size(kept, extra)
  {
    kept, total := [], used;
    ghost var n := Kept(items, extra, used, budget);
    var i := 0;
    while i < |items| && total + |items[i]| + extra <= budget
      invariant i <= |items| && kept == items[..i] && total == used + Size(kept, extra)
      invariant n == i + Kept(items[i..], extra, total, budget)
    {
      assert items[i..][0] == items[i] && items[i..][1..] == items[i + 1..];
      assert items[..i + 1][..i] == items[..i];
      total := total + |items[i]| + extra;
      kept := kept + [items[i]];
      i := i + 1;
    }
    if i < |items| {
      assert items[i..][0] == items[i];
    }
  }

  method AssembleWithTruncation(w: Wording, d: Document, maxChars: int) returns (summary: string)
    ensures summary == Assembled(w, d, maxChars)
  {
    if FixedSize(d) + Size(d.failures, 2) + Size(d.rows, 1) <= maxChars {
      return Layout(d, d.failures, d.rows);
    }
    var budget := Budget(d, maxChars);
    var failures, used := Fill(d.failures, 2, 0, budget);
    var rows, total := Fill(d.rows, 1, used, budget);
    assert failures == d.failures[..KeptFailures(d, maxChars)];
    assert rows == d.rows[..KeptRows(d, maxChars)];
    TruncatedIsCut(w, d, maxChars);
    summary := Cut(w, d, failures, rows, maxChars);
  }

  // ---------------------------------------------------------------- what the reader is promised

  /** Without truncation the predicted size is exact. */
  lemma {:induction false} PredictedSizeIsExact(w: Wording, d: Document, maxChars: int)
    requires !Truncates(d, maxChars)
    ensures |Assembled(w, d, maxChars)| == FullSize(d) <= maxChars
    ensures KeptFailures(d, maxChars) == |d.failures| && KeptRows(d, maxChars) == |d.rows|
  {
    LayoutSize(d, d.failures, d.rows);
  }

  lemma {:induction false} KeptFitsBudget(d: Document, maxChars: int)
    requires Truncates(d, maxChars)
    ensures Size(d.failures[..KeptFailures(d, maxChars)], 2) + Size(d.rows[..KeptRows(d, maxChars)], 1)
         <= Budget(d, maxChars)
  {
    KeptIsLongestPrefix(d.failures, 2, 0, Budget(d, maxChars));
    KeptIsLongestPrefix(d.rows, 1, Size(d.failures[..KeptFailures(d, maxChars)], 2), Budget(d, maxChars));
  }

  lemma {:induction false} CutSize(w: Wording, d: Document, failures: seq<string>, rows: seq<string>, maxChars: int)
    requires Fitting(w) && |failures| <= |d.failures| && |rows| <= |d.rows|
    requires |Shown(|d.failures| - |failures|)| + |Shown(|d.rows| - |rows|)| + |Shown(maxChars)| <= MOST_DIGITS
    ensures |Cut(w, d, failures, rows, maxChars)| <= FixedSize(d) + Size(failures, 2) + Size(rows, 1) + HEADROOM
  {
    var layout, footer := Layout(d, failures, rows), Footer(w, |d.failures| - |failures|, |d.rows| - |rows|, maxChars);
    LayoutSize(d, failures, rows);
    FooterFitsHeadroom(w, |d.failures| - |failures|, |d.rows| - |rows|, maxChars);
    assert Cut(w, d, failures, rows, maxChars) == layout + footer;
  }

  /** The summary stays under the limit whenever the fixed part and the footer's headroom do. */
  lemma {:induction false} SummaryFits(w: Wording, d: Document, maxChars: int)
    requires Fitting(w) && FixedSize(d) + HEADROOM <= maxChars
    requires |Shown(|d.failures| - KeptFailures(d, maxChars))| + |Shown(|d.rows| - KeptRows(d, maxChars))|
           + |Shown(maxChars)| <= MOST_DIGITS
    ensures |Assembled(w, d, maxChars)| <= maxChars
  {
    var failures, rows := KeptFailures(d, maxChars), KeptRows(d, maxChars);
    if Truncates(d, maxChars) {
      KeptFitsBudget(d, maxChars);
      TruncatedIsCut(w, d, maxChars);
      CutSize(w, d, d.failures[..failures], d.rows[..rows], maxChars);
    } else {
      PredictedSizeIsExact(w, d, maxChars);
    }
  }

  /** So does the summary with its actual words. */
  lemma {:induction false} PostedSummaryFits(d: Document, maxChars: int)
    requires FixedSize(d) + HEADROOM <= maxChars
    requires |Shown(|d.failures| - KeptFailures(d, maxChars))| + |Shown(|d.rows| - KeptRows(d, maxChars))|
           + |Shown(maxChars)| <= MOST_DIGITS
    ensures |Assembled(WORDING, d, maxChars)| <= maxChars
  {
    WordingFits();
    SummaryFits(WORDING, d, maxChars);
  }

  /** Failures come first: a row is given up before a failure that would still have fitted, and both are cut from the
      end. */
  lemma {:induction false} FailuresComeFirst(d: Document, maxChars: int)
    requires Truncates(d, maxChars)
    ensures KeptFailures(d, maxChars) < |d.failures| ==>
      Size(d.failures[..KeptFailures(d, maxChars) + 1], 2) > Budget(d, maxChars)
    ensures KeptRows(d, maxChars) < |d.rows| ==>
      Size(d.failures[..KeptFailures(d, maxChars)], 2) + Size(d.rows[..KeptRows(d, maxChars) + 1], 1)
      > Budget(d, maxChars)
  {
    KeptIsLongestPrefix(d.failures, 2, 0, Budget(d, maxChars));
    KeptIsLongestPrefix(d.rows, 1, Size(d.failures[..KeptFailures(d, maxChars)], 2), Budget(d, maxChars));
  }

  /** No more could have been kept: with one more failure the text would leave less than 240 characters for the
      footer ... */
  lemma {:induction false} NoMoreFailuresFit(d: Document, maxChars: int)
    requires Truncates(d, maxChars) && KeptFailures(d, maxChars) < |d.failures|
    ensures |Layout(d, d.failures[..KeptFailures(d, maxChars) + 1], [])| + 240 > maxChars
  {
    FailuresComeFirst(d, maxChars);
    TooLong(d, d.failures[..KeptFailures(d, maxChars) + 1], [], maxChars);
  }

  /** ... and with one more row just as well. */
  lemma {:induction false} NoMoreRowsFit(d: Document, maxChars: int)
    requires Truncates(d, maxChars) && KeptRows(d, maxChars) < |d.rows|
    ensures |Layout(d, d.failures[..KeptFailures(d, maxChars)], d.rows[..KeptRows(d, maxChars) + 1])| + 240 > maxChars
  {
    FailuresComeFirst(d, maxChars);
    TooLong(d, d.failures[..KeptFailures(d, maxChars)], d.rows[..KeptRows(d, maxChars) + 1], maxChars);
  }

  lemma {:induction false} TooLong(d: Document, failures: seq<string>, rows: seq<string>, maxChars: int)
    requires Size(failures, 2) + Size(rows, 1) > Budget(d, maxChars)
    ensures |Layout(d, failures, rows)| + 240 > maxChars
  {
    LayoutSize(d, failures, rows);
  }

  /** With anything to drop, a footer appears if and only if something was dropped. */
  lemma {:induction false} FooterExactlyWhenDropped(d: Document, maxChars: int)
    requires d.rows != [] || d.failures != []
    ensures Truncates(d, maxChars) <==>
      KeptFailures(d, maxChars) < |d.failures| || KeptRows(d, maxChars) < |d.rows|
  {
    assert d.failures[..0] == [] && d.rows[..0] == [];
    if Truncates(d, maxChars) {
      KeptFitsBudget(d, maxChars);
      assert d.failures[..|d.failures|] == d.failures && d.rows[..|d.rows|] == d.rows;
      SizeGrows(d.failures, 2, 0);
      SizeGrows(d.rows, 1, 0);
    }
  }

  /** With nothing to drop, a fixed part that is too long still gets a footer, which then discloses nothing. */
  lemma {:induction false} EmptyDocumentMayCarryFooter(w: Wording, d: Document, maxChars: int)
    requires d.rows == [] && d.failures == []
    ensures Truncates(d, maxChars) <==> FixedSize(d) > maxChars
    ensures Truncates(d, maxChars) ==>
      Assembled(w, d, maxChars) == Stats(d) + TableHead(d) + Footer(w, 0, 0, maxChars)
  {
    var failures, rows := d.failures[..KeptFailures(d, maxChars)], d.rows[..KeptRows(d, maxChars)];
    assert failures == [] && rows == [];
    assert Layout(d, failures, rows) == Stats(d) + TableHead(d);
  }

  // ---------------------------------------------------------------- what stands where

  /** The item stands at the given place, with the separator after it. */
  predicate StandsAt(text: string, place: nat, item: string, separator: string) {
    && place + |item| + |separator| <= |text|
    && text[place..place + |item|] == item
    && text[place + |item|..place + |item| + |separator|] == separator
  }

  /** One of the items that stand one after the other from the given place on. */
  predicate ItemStands(text: string, place: nat, items: seq<string>, separator: string, i: nat)
    requires i < |items|
  {
    StandsAt(text, place + Size(items[..i], |separator|), items[i], separator)
  }

  predicate AllStand(text: string, place: nat, items: seq<string>, separator: string) {
    forall i | 0 <= i < |items| :: ItemStands(text, place, items, separator, i)
  }

  lemma {:induction false} SliceInside(before: string, text: string, after: string, from: nat, to: nat)
    requires from <= to <= |text|
    ensures (before + text + after)[|before| + from..|before| + to] == text[from..to]
  {
  }

  lemma {:induction false} StandsIn(before: string, text: string, after: string, place: nat, item: string,
                                    separator: string)
    requires StandsAt(text, place, item, separator)
    ensures StandsAt(before + text + after, |before| + place, item, separator)
  {
    SliceInside(before, text, after, place, place + |item|);
    SliceInside(before, text, after, place + |item|, place + |item| + |separator|);
  }

  lemma {:induction false} AllStandIn(before: string, text: string, after: string, items: seq<string>,
                                      separator: string)
    requires AllStand(text, 0, items, separator)
    ensures AllStand(before + text + after, |before|, items, separator)
  {
    forall i | 0 <= i < |items|
      ensures ItemStands(before + text + after, |before|, items, separator, i)
    {
      assert ItemStands(text, 0, items, separator, i);
      StandsIn(before, text, after, Size(items[..i], |separator|), items[i], separator);
    }
  }

  lemma {:induction false} SectionSnoc(separator: string, items: seq<string>)
    requires items != []
    ensures Section(separator, items)
         == "" + Section(separator, items[..|items| - 1]) + (items[|items| - 1] + separator)
  {
    if |items| == 1 {
      assert Section(separator, items) == items[0] + separator;
    }
  }

  lemma {:induction false} StandsHere(before: string, item: string, separator: string)
    ensures StandsAt("" + before + (item + separator), |before|, item, separator)
  {
    var all := "" + before + (item + separator);
    assert all[|before|..|before| + |item|] == item;
    assert all[|before| + |item|..|before| + |item| + |separator|] == separator;
  }

  /** In a section the items stand one after the other, each with the separator after it. */
  lemma {:induction false} SectionShows(separator: string, items: seq<string>)
    ensures AllStand(Section(separator, items), 0, items, separator)
    decreases |items|
  {
    if items != [] {
      var n := |items| - 1;
      SectionShows(separator, items[..n]);
      AllStandIn("", Section(separator, items[..n]), items[n] + separator, items[..n], separator);
      SectionSnoc(separator, items);
      SectionSize(separator, items[..n]);
      StandsHere(Section(separator, items[..n]), items[n], separator);
      OneMoreStands(Section(separator, items), items, separator);
    }
  }

  lemma {:induction false} OneMoreStands(text: string, items: seq<string>, separator: string)
    requires items != [] && AllStand(text, 0, items[..|items| - 1], separator)
    requires StandsAt(text, Size(items[..|items| - 1], |separator|), items[|items| - 1], separator)
    ensures AllStand(text, 0, items, separator)
  {
    var n := |items| - 1;
    forall i | 0 <= i < |items|
      ensures ItemStands(text, 0, items, separator, i)
    {
      if i < n {
        assert items[..n][..i] == items[..i] && items[..n][i] == items[i];
        assert ItemStands(text, 0, items[..n], separator, i);
      }
    }
  }

  lemma {:induction false} SectionStands(separator: string, before: string, items: seq<string>, after: string)
    ensures AllStand(before + Section(separator, items) + after, |before|, items, separator)
  {
    SectionShows(separator, items);
    AllStandIn(before, Section(separator, items), after, items, separator);
  }

  lemma {:induction false} Regroup(a: string, b: string, c: string, d: string)
    ensures a + b + c + d == a + b + (c + d)
  {
  }

  lemma {:induction false} FirstStands(
    separator: string, items: seq<string>, b: string, c: string, d: string, e: string)
    ensures AllStand(Section(separator, items) + b + c + d + e, 0, items, separator)
  {
    SectionStands(separator, "", items, b);
    assert "" + Section(separator, items) + b == Section(separator, items) + b;
    AllStandIn("", Section(separator, items) + b, c + d + e, items, separator);
    var text := Section(separator, items) + b;
    assert "" + text + (c + d + e) == text + c + d + e;
  }

  lemma {:induction false} SecondStands(a: string, item: string, separator: string, c: string, d: string, e: string)
    ensures StandsAt(a + (item + separator) + c + d + e, |a|, item, separator)
  {
    StandsHere("", item, separator);
    StandsIn(a, "" + "" + (item + separator), c + d + e, 0, item, separator);
    var text := item + separator;
    assert a + ("" + "" + text) + (c + d + e) == a + text + c + d + e;
  }

  lemma {:induction false} ThirdStands(
    a: string, b: string, separator: string, items: seq<string>, d: string, e: string)
    ensures AllStand(a + b + Section(separator, items) + d + e, |a| + |b|, items, separator)
  {
    SectionStands(separator, a + b, items, d + e);
    Regroup(a + b, Section(separator, items), d, e);
    var text := Section(separator, items);
    assert a + b + text + (d + e) == a + b + text + d + e;
  }

  lemma {:induction false} FourthStands(
    a: string, b: string, c: string, separator: string, items: seq<string>, e: string)
    ensures AllStand(a + b + c + Section(separator, items) + e, |a| + |b| + |c|, items, separator)
  {
    SectionStands(separator, a + b + c, items, e);
  }

  lemma {:induction false} LastStands(a: string, b: string, c: string, d: string, separator: string, items: seq<string>)
    ensures AllStand(a + b + c + d + Section(separator, items), |a| + |b| + |c| + |d|, items, separator)
  {
    EndStands(a + b + c + d, separator, items);
    var text := a + b + c + d + Section(separator, items);
    Moved(text, text, |a + b + c + d|, |a| + |b| + |c| + |d|, items, separator);
  }

  lemma {:induction false} Moved(text: string, same: string, p: nat, q: nat, items: seq<string>, separator: string)
    requires text == same && p == q && AllStand(text, p, items, separator)
    ensures AllStand(same, q, items, separator)
  {
  }

  lemma {:induction false} EndStands(before: string, separator: string, items: seq<string>)
    ensures AllStand(before + Section(separator, items), |before|, items, separator)
  {
    SectionStands(separator, before, items, "");
    NothingAfter(before + Section(separator, items));
  }

  lemma {:induction false} NothingAfter(text: string)
    ensures text + "" == text
  {
  }

  /** The header lines come first, then the heading if there are any failures at all. */
  lemma {:induction false} HeaderShows(d: Document, failures: seq<string>, rows: seq<string>)
    requires d.header != []
    ensures AllStand(Layout(d, failures, rows), 0, d.header, "\n")
    ensures d.failures != [] ==> StandsAt(Layout(d, failures, rows), Size(d.header, 1), "## Failures", "\n\n")
    ensures |Stats(d)| == Size(d.header, 1) && |Heading(d)| == if d.failures == [] then 0 else 13
  {
    SectionSize("\n", d.header);
    assert Stats(d) == Section("\n", d.header);
    FirstStands("\n", d.header, Heading(d), Section("\n\n", failures), TableHead(d), Section("\n", rows));
    if d.failures != [] {
      assert "## Failures" + "\n\n" == Heading(d);
      SecondStands(Stats(d), "## Failures", "\n\n", Section("\n\n", failures), TableHead(d), Section("\n", rows));
    }
  }

  /** Then the failures, each followed by a blank line, before the table. */
  lemma {:induction false} FailuresShow(d: Document, failures: seq<string>, rows: seq<string>)
    ensures AllStand(Layout(d, failures, rows), |Stats(d)| + |Heading(d)|, failures, "\n\n")
  {
    var a, b, c, e, f := Stats(d), Heading(d), Section("\n\n", failures), TableHead(d), Section("\n", rows);
    ThirdStands(a, b, "\n\n", failures, e, f);
    Moved(a + b + c + e + f, Layout(d, failures, rows), |a| + |b|, |a| + |b|, failures, "\n\n");
  }

  /** Then the table's header lines ... */
  lemma {:induction false} TableShows(d: Document, failures: seq<string>, rows: seq<string>)
    requires d.tableHeader != []
    ensures AllStand(Layout(d, failures, rows), |Stats(d)| + |Heading(d)| + Size(failures, 2), d.tableHeader, "\n")
    ensures |TableHead(d)| == Size(d.tableHeader, 1)
  {
    SectionSize("\n\n", failures);
    SectionSize("\n", d.tableHeader);
    assert TableHead(d) == Section("\n", d.tableHeader);
    var a, b, c, e, f := Stats(d), Heading(d), Section("\n\n", failures), TableHead(d), Section("\n", rows);
    FourthStands(a, b, c, "\n", d.tableHeader, f);
    Moved(a + b + c + e + f, Layout(d, failures, rows), |a| + |b| + |c|, |a| + |b| + Size(failures, 2), d.tableHeader,
          "\n");
  }

  /** ... and, to the end of the layout, its rows. */
  lemma {:induction false} RowsShow(d: Document, failures: seq<string>, rows: seq<string>)
    ensures AllStand(Layout(d, failures, rows), FixedSize(d) + Size(failures, 2), rows, "\n")
  {
    SectionSize("\n\n", failures);
    var a, b, c, e, f := Stats(d), Heading(d), Section("\n\n", failures), TableHead(d), Section("\n", rows);
    LastStands(a, b, c, e, "\n", rows);
    Moved(a + b + c + e + f, Layout(d, failures, rows), |a| + |b| + |c| + |e|, FixedSize(d) + Size(failures, 2), rows,
          "\n");
  }

  // ---------------------------------------------------------------- what the footer says

  function DigitValue(c: char): nat {
    if '0' <= c <= '9' then c as int - '0' as int else 0
  }

  /** The number that a string of digits stands for. */
  function Read(digits: string): nat {
    if digits == "" then 0 else 10 * Read(digits[..|digits| - 1]) + DigitValue(digits[|digits| - 1])
  }

  /** Numbers are written in decimal, so that the reader gets the same number back. */
  lemma {:induction false} DecimalReadsBack(n: nat)
    ensures Read(Decimal(n)) == n
    ensures forall c <- Decimal(n) :: '0' <= c <= '9'
    ensures n > 0 ==> Decimal(n)[0] != '0'
  {
    DigitReads(n % 10);
    if n < 10 {
      assert Decimal(n)[..0] == "";
    } else {
      DecimalReadsBack(n / 10);
      ReadSnoc(Decimal(n / 10), Digit(n % 10));
    }
  }

  lemma {:induction false} DigitReads(d: nat)
    requires d < 10
    ensures DigitValue(Digit(d)) == d && '0' <= Digit(d) <= '9' && (d > 0 ==> Digit(d) != '0')
  {
  }

  lemma {:induction false} ReadSnoc(digits: string, c: char)
    ensures Read(digits + [c]) == 10 * Read(digits) + DigitValue(c)
  {
    assert (digits + [c])[..|digits|] == digits;
  }

  /** How many failures and rows are missing, each only if there are any, and the limit. */
  function Disclosure(w: Wording, omittedFailures: nat, omittedRows: nat, maxChars: nat): string {
    var failures, rows := Decimal(omittedFailures) + w.failures, Decimal(omittedRows) + w.rows;
    var notes := if omittedFailures == 0 && omittedRows == 0 then ""
                 else if omittedRows == 0 then failures
                 else if omittedFailures == 0 then rows
                 else failures + w.conjunction + rows;
    w.opening + notes + w.limit + Decimal(maxChars) + w.ending
  }

  lemma {:induction false} FooterDiscloses(w: Wording, omittedFailures: nat, omittedRows: nat, maxChars: nat)
    ensures Footer(w, omittedFailures, omittedRows, maxChars)
         == Disclosure(w, omittedFailures, omittedRows, maxChars)
  {
    NotesRead(w, omittedFailures, omittedRows);
  }

  /** In the script's own words. */
  lemma {:induction false} DisclosureReads(omittedFailures: nat, omittedRows: nat, maxChars: nat)
    ensures
      var failures := Decimal(omittedFailures) + " failure detail block(s) omitted";
      var rows := Decimal(omittedRows) + " additional test row(s) omitted";
      var notes := if omittedFailures == 0 && omittedRows == 0 then ""
                   else if omittedRows == 0 then failures
                   else if omittedFailures == 0 then rows
                   else failures + " and " + rows;
      Footer(WORDING, omittedFailures, omittedRows, maxChars)
      == "\n_... " + notes + " to keep the summary under " + Decimal(maxChars)
         + " characters. See the workflow run page for the full list._\n"
  {
    FooterDiscloses(WORDING, omittedFailures, omittedRows, maxChars);
  }

  /** The whole text: everything if it fits; otherwise the failures and rows that are kept, and then the numbers of
      those that are missing. */
  lemma {:induction false} SummaryIs(w: Wording, d: Document, maxChars: nat)
    ensures
      var failures, rows := KeptFailures(d, maxChars), KeptRows(d, maxChars);
      Assembled(w, d, maxChars)
      == if |Layout(d, d.failures, d.rows)| <= maxChars then Layout(d, d.failures, d.rows)
         else Layout(d, d.failures[..failures], d.rows[..rows])
              + Disclosure(w, |d.failures| - failures, |d.rows| - rows, maxChars)
  {
    TruncatesExactlyWhen(d, maxChars);
    if Truncates(d, maxChars) {
      var failures, rows := KeptFailures(d, maxChars), KeptRows(d, maxChars);
      TruncatedIsCut(w, d, maxChars);
      CutIs(w, d, d.failures[..failures], d.rows[..rows], failures, rows, maxChars);
      FooterDiscloses(w, |d.failures| - failures, |d.rows| - rows, maxChars);
    }
  }

  lemma {:induction false} TruncatesExactlyWhen(d: Document, maxChars: int)
    ensures Truncates(d, maxChars) <==> |Layout(d, d.failures, d.rows)| > maxChars
  {
    LayoutSize(d, d.failures, d.rows);
  }

  lemma {:induction false} CutIs(
    w: Wording, d: Document, failures: seq<string>, rows: seq<string>, n: nat, m: nat, maxChars: int)
    requires |failures| == n <= |d.failures| && |rows| == m <= |d.rows|
    ensures Cut(w, d, failures, rows, maxChars)
         == Layout(d, failures, rows) + Footer(w, |d.failures| - n, |d.rows| - m, maxChars)
  {
  }

  lemma {:induction false} NotesRead(w: Wording, omittedFailures: nat, omittedRows: nat)
    ensures
      var failures, rows := Decimal(omittedFailures) + w.failures, Decimal(omittedRows) + w.rows;
      Joined(w.conjunction, Notes(w, omittedFailures, omittedRows))
      == if omittedFailures == 0 && omittedRows == 0 then ""
         else if omittedRows == 0 then failures
         else if omittedFailures == 0 then rows
         else failures + w.conjunction + rows
  {
    var notes := Notes(w, omittedFailures, omittedRows);
    if |notes| == 2 {
      assert notes[..1] == [notes[0]];
    }
  }
}
