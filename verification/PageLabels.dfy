/** The page labels of a PDF (app/services/docpacks.py). */
module PageLabels {
  import opened AttrKeys
  import opened Numerals

  datatype Style = NoStyle | Decimal | UpperRoman | LowerRoman | UpperLetters | LowerLetters | OtherStyle

  datatype Info = Info(prefix: string, style: Style, first: int)

  /** A labelled range: it begins at this 0-based page. */
  datatype Entry = Entry(start: nat, info: Info)

  function Digits(n: nat): string {
    if n < 10 then [(48 + n) as char] else Digits(n / 10) + [(48 + n % 10) as char]
  }

  function Plain(n: int): string {
    if n < 0 then "-" + Digits(-n) else Digits(n)
  }

  function UpperLettersOf(n: int): string {
    if n <= 0 then "" else Letters(n)
  }

  /** `_format_page_label`. */
  function Format(style: Style, n: int): string {
    match style
    case NoStyle => ""
    case Decimal => Plain(n)
    case UpperRoman => Roman(n)
    case LowerRoman => Lower(Roman(n))
    case UpperLetters => UpperLettersOf(n)
    case LowerLetters => Lower(UpperLettersOf(n))
    case OtherStyle => Plain(n)
  }

  /** The digits of a number: read back they give it, and none is a zero in front of others. */
  lemma {:induction false} DigitsReadBack(n: nat)
    ensures Digits(n) != "" && (forall i :: 0 <= i < |Digits(n)| ==> 48 <= Digits(n)[i] as int <= 57)
    ensures DecimalValue(Digits(n)) == n && (n > 0 ==> Digits(n)[0] != '0') && (n == 0 ==> Digits(n) == "0")
  {
    if n >= 10 {
      DigitsReadBack(n / 10);
      assert Digits(n)[..|Digits(n)| - 1] == Digits(n / 10);
    }
  }

  ghost function DecimalValue(s: string): int {
    if s == "" then 0 else DecimalValue(s[..|s| - 1]) * 10 + (s[|s| - 1] as int - 48)
  }

  /** A label's number in each style. Roman numerals and letters stand for positive numbers only. */
  lemma FormatMeaning(n: int)
    ensures Format(NoStyle, n) == "" && Format(OtherStyle, n) == Format(Decimal, n)
    ensures n >= 0 ==> DecimalValue(Format(Decimal, n)) == n && (n > 0 ==> Format(Decimal, n)[0] != '0')
    ensures n < 0 ==> Format(Decimal, n) == "-" + Format(Decimal, -n)
    ensures n <= 0 ==> Format(UpperRoman, n) == "" && Format(UpperLetters, n) == ""
    ensures n > 0 ==> RomanValue(Format(UpperRoman, n)) == n
    ensures n > 0 ==> AllLetters(Format(UpperLetters, n)) && LettersValue(Format(UpperLetters, n)) == n
    ensures Format(LowerRoman, n) == Lower(Format(UpperRoman, n)) && Format(LowerLetters, n) == Lower(Format(UpperLetters, n))
  {
    if n > 0 {
      RomanReadsBack(n);
      LettersReadBack(n);
    }
    if n >= 0 {
      DigitsReadBack(n);
    }
  }

  /** The label a range gives to a page in it. */
  function LabelIn(e: Entry, page: nat): string {
    e.info.prefix + Format(e.info.style, e.info.first + (page - e.start))
  }

  ghost predicate Ascending(entries: seq<Entry>) {
    forall i, j :: 0 <= i < j < |entries| ==> entries[i].start < entries[j].start
  }

  /** Range i is the last one beginning at or before the page. */
  ghost predicate Covers(entries: seq<Entry>, i: int, page: nat) {
    && 0 <= i < |entries| && entries[i].start <= page
    && forall j :: 0 <= j < |entries| && entries[j].start <= page ==> entries[j].start <= entries[i].start
  }

  /** The label a page should have: that of the range with the greatest start not after it, if any. */
  ghost predicate IsLabel(entries: seq<Entry>, page: nat, text: string) {
    && (forall i :: Covers(entries, i, page) ==> text == LabelIn(entries[i], page))
    && ((forall i :: 0 <= i < |entries| ==> entries[i].start > page) ==> text == "")
  }

  function EndOf(entries: seq<Entry>, i: nat, total: nat): nat
    requires i < |entries|
  {
    if i + 1 < |entries| && entries[i + 1].start < total then entries[i + 1].start else total
  }

  /** The label after the first n ranges have been filled in. */
  ghost predicate FilledTo(entries: seq<Entry>, n: nat, total: nat, page: nat, text: string)
    requires n <= |entries|
  {
    if exists i :: 0 <= i < n && entries[i].start <= page < EndOf(entries, i, total)
    then forall i :: 0 <= i < n && entries[i].start <= page < EndOf(entries, i, total) ==> text == LabelIn(entries[i], page)
    else text == ""
  }

  /** Ranges do not overlap. */
  lemma OneRange(entries: seq<Entry>, i: nat, j: nat, total: nat, page: nat)
    requires Ascending(entries) && i < |entries| && j < |entries|
    requires entries[i].start <= page < EndOf(entries, i, total) && entries[j].start <= page < EndOf(entries, j, total)
    ensures i == j
  {
  }

  /** Write one range's labels. */
  method FillRange(labels: array<string>, e: Entry, end: nat)
    requires e.start <= end <= labels.Length
    requires forall p :: e.start <= p < end ==> labels[p] == ""
    modifies labels
    ensures forall p :: 0 <= p < labels.Length ==> labels[p] == if e.start <= p < end then LabelIn(e, p) else old(labels[p])
  {
    for page := e.start to end
      invariant forall p :: 0 <= p < labels.Length ==> labels[p] == if e.start <= p < page then LabelIn(e, p) else old(labels[p])
    {
      var number := Format(e.info.style, e.info.first + (page - e.start));
      var text := if e.info.prefix != "" || number != "" then e.info.prefix + number else "";
      if text != "" {
        labels[page] := text;
      }
    }
  }

  /** The loop of `_page_labels_from_pagelabels` over the ranges in order of their starts. */
  method FillLabels(entries: seq<Entry>, total: nat) returns (labels: array<string>)
    requires Ascending(entries)
    ensures fresh(labels) && labels.Length == total
    ensures forall p :: 0 <= p < total ==> IsLabel(entries, p, labels[p])
  {
    labels := new string[total](_ => "");
    for i := 0 to |entries|
      invariant forall p :: 0 <= p < total ==> FilledTo(entries, i, total, p, labels[p])
    {
      ghost var before := labels[..];
      if entries[i].start < total {
        var end := if i + 1 < |entries| then entries[i + 1].start else total;
        end := if end < total then end else total;
        forall p | entries[i].start <= p < end ensures labels[p] == "" {
          NotYet(entries, i, total, p, labels[p]);
        }
        FillRange(labels, entries[i], end);
      }
      forall p | 0 <= p < total ensures FilledTo(entries, i + 1, total, p, labels[p]) {
        FilledStep(entries, i, total, p, before[p]);
      }
    }
    forall p | 0 <= p < total ensures IsLabel(entries, p, labels[p]) {
      FilledIsLabel(entries, total, p, labels[p]);
    }
  }

  lemma NotYet(entries: seq<Entry>, n: nat, total: nat, page: nat, text: string)
    requires Ascending(entries) && n < |entries| && FilledTo(entries, n, total, page, text)
    requires entries[n].start <= page < EndOf(entries, n, total)
    ensures text == ""
  {
    if i :| 0 <= i < n && entries[i].start <= page < EndOf(entries, i, total) {
      OneRange(entries, i, n, total, page);
    }
  }

  lemma FilledStep(entries: seq<Entry>, n: nat, total: nat, page: nat, text: string)
    requires Ascending(entries) && n < |entries| && page < total && FilledTo(entries, n, total, page, text)
    ensures FilledTo(entries, n + 1, total, page,
                     if entries[n].start <= page < EndOf(entries, n, total) then LabelIn(entries[n], page) else text)
  {
    if entries[n].start <= page < EndOf(entries, n, total) {
      forall i | 0 <= i < n + 1 && entries[i].start <= page < EndOf(entries, i, total) ensures i == n {
        OneRange(entries, i, n, total, page);
      }
    } else {
      assert forall i :: 0 <= i < n + 1 && entries[i].start <= page < EndOf(entries, i, total) ==> i < n;
    }
  }

  /** Once all ranges are filled in, every page has the label it should. */
  lemma FilledIsLabel(entries: seq<Entry>, total: nat, page: nat, text: string)
    requires Ascending(entries) && page < total && FilledTo(entries, |entries|, total, page, text)
    ensures IsLabel(entries, page, text)
  {
    forall i | Covers(entries, i, page) ensures text == LabelIn(entries[i], page) {
      assert page < EndOf(entries, i, total);
    }
  }

  /** A page has one label only: the range is determined by the page. */
  lemma LabelIsUnique(entries: seq<Entry>, page: nat, a: string, b: string)
    requires Ascending(entries) && IsLabel(entries, page, a) && IsLabel(entries, page, b)
    ensures a == b
  {
    if exists i :: 0 <= i < |entries| && entries[i].start <= page {
      var i := LastNotAfter(entries, page, |entries|);
      assert Covers(entries, i, page);
    }
  }

  lemma {:induction false} LastNotAfter(entries: seq<Entry>, page: nat, n: nat) returns (i: int)
    requires Ascending(entries) && n <= |entries|
    requires exists i :: 0 <= i < n && entries[i].start <= page
    ensures 0 <= i < n && entries[i].start <= page
    ensures forall j :: 0 <= j < n && entries[j].start <= page ==> entries[j].start <= entries[i].start
  {
    i := n - 1;
    if entries[i].start > page {
      i := LastNotAfter(entries, page, n - 1);
    }
  }
}
