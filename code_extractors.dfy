/** The summary extractor's choice of how long a code summary may be, from the size of the
    code: a step function of the number of lines. */
module CodeExtractors {
  import opened Strings

  /** The line count `get_dynamic_summary_length` uses: one more than the number of newlines,
      which is the number of pieces `split("\n")` gives. */
  function LineCount(code: string): (n: nat)
    ensures n == |Lines(code)|
    ensures n >= 1
  {
    LinesCount(code, '\n');
    CountChar(code, '\n') + 1
  }

  /** The bounds the loop tries, in order. */
  const Bounds: seq<nat> := [10, 20, 30, 40, 50]

  /** The smallest multiple of ten that is at least `n` and at least ten. */
  function Bound(n: nat): (i: nat)
    ensures i >= 10 && i % 10 == 0 && n <= i && (i - 10 < n || i == 10)
  {
    if n <= 10 then 10 else 10 * ((n + 9) / 10)
  }

  /** The summary length for `n` lines: five words per line of the smallest bound that holds
      them, and 300 past the last bound. */
  function SummaryLengthFor(n: nat): nat {
    if n <= 50 then 5 * Bound(n) else 300
  }

  /** `get_dynamic_summary_length`: tries the bounds 10, 20, ..., 50 in order and answers five
      times the first one the line count does not exceed, or 300 when it exceeds them all. */
  method DynamicSummaryLength(code: string) returns (r: nat)
    ensures r == SummaryLengthFor(LineCount(code))
  {
    var n := CountChar(code, '\n') + 1;
    var i := 10;
    while i < 60
      invariant 10 <= i <= 60 && i % 10 == 0
      invariant i - 10 < n
      decreases 60 - i
    {
      if n <= i {
        return i * 5;
      }
      i := i + 10;
    }
    return 300;
  }

  /** Up to 50 lines, the answer is five times the smallest of the bounds 10, 20, ..., 50 that
      the line count does not exceed. */
  lemma SummaryLengthSmallest(n: nat)
    requires n <= 50
    ensures var r := SummaryLengthFor(n);
      r % 5 == 0 && r / 5 in Bounds && n <= r / 5 &&
      forall j | j in Bounds && n <= j :: r / 5 <= j
  {
  }

  /** The answer is one of 50, 100, ..., 300. */
  lemma SummaryLengthRange(n: nat)
    ensures SummaryLengthFor(n) in {50, 100, 150, 200, 250, 300}
  {
  }

  /** More lines never give a shorter summary. */
  lemma SummaryLengthMonotone(m: nat, n: nat)
    requires m <= n
    ensures SummaryLengthFor(m) <= SummaryLengthFor(n)
  {
  }
}
