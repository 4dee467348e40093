/** Proportional truncation of tool-result content blocks. */
module ContentTruncation {
  import opened Wrappers

  const MIN_CHARS_PER_BLOCK: nat := 500

  /** `rest` stands for the fields truncation never reads. */
  datatype ContentBlock = ContentBlock(kind: string, text: Option<string>, rest: map<string, string>)

  function Max(a: int, b: int): int {
    if a < b then b else a
  }

  function Length(b: ContentBlock): nat {
    if b.text.Some? then |b.text.value| else 0
  }

  predicate Truncatable(b: ContentBlock) {
    b.kind == "text" && Length(b) != 0
  }

  function Sum(xs: seq<nat>): nat {
    if xs == [] then 0 else Sum(xs[..|xs| - 1]) + xs[|xs| - 1]
  }

  function Lengths(content: seq<ContentBlock>): seq<nat> {
    seq(|content|, i requires 0 <= i < |content| => Length(content[i]))
  }

  function Total(content: seq<ContentBlock>): nat {
    Sum(Lengths(content))
  }

  /** Rounds down, also for a negative limit. */
  function Budget(length: nat, maxChars: int, total: nat): nat
    requires 0 < total
  {
    Max(MIN_CHARS_PER_BLOCK, length * maxChars / total)
  }

  function Decimal(n: nat): string {
    var digit := ['0' + (n % 10) as char];
    if n < 10 then digit else Decimal(n / 10) + digit
  }

  function Marker(removed: nat): string {
    "\n[... " + Decimal(removed)
    + " chars truncated. Reduce output scope (e.g., use limit param or narrower query). ...]\n"
  }

  /** Sixty percent of the budget from the front, the rest from the back. */
  function Shorten(text: string, budget: nat): string
    requires budget < |text|
  {
    var head := budget * 3 / 5;
    var tail := budget - head;
    text[..head] + Marker(|text| - head - tail) + text[|text| - tail..]
  }

  function Fit(b: ContentBlock, budget: nat): ContentBlock {
    if !Truncatable(b) || Length(b) <= budget then b else b.(text := Some(Shorten(b.text.value, budget)))
  }

  // ---------------------------------------------------------------------------
  // What a truncated block keeps
  // ---------------------------------------------------------------------------

  /** `c` is `b` with its middle replaced by a marker that says how much is gone. */
  ghost predicate IsCut(b: ContentBlock, c: ContentBlock, head: nat, tail: nat) {
    && b.text.Some? && head + tail < Length(b)
    && var text := b.text.value;
    c == b.(text := Some(text[..head] + Marker(|text| - head - tail) + text[|text| - tail..]))
  }

  /** Three fifths, rounded down. */
  ghost predicate IsHead(head: nat, budget: nat) {
    5 * head <= 3 * budget < 5 * head + 5
  }

  /** A block that is not text or within its budget is untouched; any other keeps its budget, split around a marker. */
  ghost predicate Keeps(b: ContentBlock, c: ContentBlock, budget: nat) {
    if b.kind != "text" || b.text == None || |b.text.value| <= budget then c == b
    else exists head: nat, tail: nat :: head + tail == budget && IsHead(head, budget) && IsCut(b, c, head, tail)
  }

  /** The characters of a text block that are kept. */
  function Allowance(b: ContentBlock, budget: nat): nat {
    if !Truncatable(b) || Length(b) <= budget then Length(b) else budget
  }

  lemma FitKeeps(b: ContentBlock, budget: nat)
    ensures Keeps(b, Fit(b, budget), budget)
  {
    if Truncatable(b) && budget < Length(b) {
      var head := budget * 3 / 5;
      assert IsCut(b, Fit(b, budget), head, budget - head);
    }
  }

  // ---------------------------------------------------------------------------
  // What is kept altogether
  // ---------------------------------------------------------------------------

  /** One for each text block. */
  function Marks(content: seq<ContentBlock>): seq<nat> {
    seq(|content|, i requires 0 <= i < |content| => if Truncatable(content[i]) then 1 else 0)
  }

  function Texts(content: seq<ContentBlock>): nat {
    Sum(Marks(content))
  }

  function Allowances(content: seq<ContentBlock>, budgets: seq<nat>): seq<nat>
    requires |budgets| == |content|
  {
    seq(|content|, i requires 0 <= i < |content| =>
      if Truncatable(content[i]) then Allowance(content[i], budgets[i]) else 0)
  }

  /** A share of the limit in proportion to the length, and the minimum once per mark. */
  predicate AtMost(kept: nat, length: nat, marks: nat, max: nat, total: nat) {
    kept * total <= length * max + 500 * (marks * total)
  }

  lemma AtMostAdds(k: nat, l: nat, m: nat, k': nat, l': nat, m': nat, max: nat, total: nat)
    requires AtMost(k, l, m, max, total) && AtMost(k', l', m', max, total)
    ensures AtMost(k + k', l + l', m + m', max, total)
  {
    assert (k + k') * total == k * total + k' * total;
    assert (l + l') * max == l * max + l' * max;
    assert (m + m') * total == m * total + m' * total;
  }

  lemma {:induction false} SumIsAtMost(kept: seq<nat>, lengths: seq<nat>, marks: seq<nat>, max: nat, total: nat)
    requires |kept| == |lengths| == |marks|
    requires forall i :: 0 <= i < |kept| ==> AtMost(kept[i], lengths[i], marks[i], max, total)
    ensures AtMost(Sum(kept), Sum(lengths), Sum(marks), max, total)
  {
    if kept != [] {
      var n := |kept| - 1;
      SumIsAtMost(kept[..n], lengths[..n], marks[..n], max, total);
      AtMostAdds(Sum(kept[..n]), Sum(lengths[..n]), Sum(marks[..n]), kept[n], lengths[n], marks[n], max, total);
    }
  }

  lemma ShareIsAtMost(length: nat, maxChars: int, total: nat)
    requires 0 < total
    ensures length * maxChars / total * total <= length * Max(maxChars, 0)
  {
    assert length * maxChars / total * total <= length * maxChars;
    if maxChars < 0 {
      assert length * maxChars <= 0;
    }
  }

  lemma BudgetIsAtMost(length: nat, maxChars: int, total: nat)
    requires 0 < total
    ensures AtMost(Budget(length, maxChars, total), length, 1, Max(maxChars, 0), total)
  {
    ShareIsAtMost(length, maxChars, total);
    assert 0 <= length * Max(maxChars, 0);
  }

  lemma LessIsAtMost(kept: nat, more: nat, length: nat, marks: nat, max: nat, total: nat)
    requires kept <= more && AtMost(more, length, marks, max, total)
    ensures AtMost(kept, length, marks, max, total)
  {
    assert kept * total <= more * total;
  }

  lemma Cancel(a: nat, b: nat, total: nat)
    requires 0 < total && a * total <= b * total
    ensures a <= b
  {
  }

  lemma WholeIsBounded(kept: nat, marks: nat, max: nat, total: nat)
    requires 0 < total && AtMost(kept, total, marks, max, total)
    ensures kept <= max + 500 * marks
  {
    assert (max + 500 * marks) * total == total * max + 500 * (marks * total);
    Cancel(kept, max + 500 * marks, total);
  }

  /** The proportional share, rounded down, but never below five hundred. */
  ghost predicate IsBudget(budget: nat, length: nat, maxChars: int, total: nat) {
    && 500 <= budget && length * maxChars < (budget + 1) * total
    && (budget == 500 || budget * total <= length * maxChars)
  }

  lemma BudgetIs(length: nat, maxChars: int, total: nat)
    requires 0 < total
    ensures IsBudget(Budget(length, maxChars, total), length, maxChars, total)
  {
    var product := length * maxChars;
    var share := product / total;
    assert share * total <= product < (share + 1) * total;
    if share < 500 {
      assert (share + 1) * total <= 501 * total;
    }
  }

  lemma BudgetIsUnique(a: nat, b: nat, length: nat, maxChars: int, total: nat)
    requires 0 < total && IsBudget(a, length, maxChars, total) && IsBudget(b, length, maxChars, total) && a <= b
    ensures a == b
  {
    if b != 500 {
      CancelStrictly(b, a + 1, total);
    }
  }

  lemma CancelStrictly(a: nat, b: nat, total: nat)
    requires a * total < b * total
    ensures a < b
  {
  }

  /** Each budget is the one truncation computes for its block. */
  ghost predicate Budgeted(content: seq<ContentBlock>, maxChars: int, budgets: seq<nat>) {
    && |budgets| == |content|
    && (forall i :: 0 <= i < |content| && Truncatable(content[i]) ==>
          0 < Total(content) && IsBudget(budgets[i], Length(content[i]), maxChars, Total(content)))
  }

  /** The minimum per block is the only excess over the limit. */
  lemma KeptIsBounded(content: seq<ContentBlock>, maxChars: int, budgets: seq<nat>)
    requires Budgeted(content, maxChars, budgets)
    ensures Sum(Allowances(content, budgets)) <= Max(maxChars, 0) + MIN_CHARS_PER_BLOCK * Texts(content)
  {
    var total, max := Total(content), Max(maxChars, 0);
    var kept, lengths, marks := Allowances(content, budgets), Lengths(content), Marks(content);
    forall i | 0 <= i < |content| ensures AtMost(kept[i], lengths[i], marks[i], max, total) {
      if Truncatable(content[i]) {
        BudgetIs(lengths[i], maxChars, total);
        var exact := Budget(lengths[i], maxChars, total);
        if budgets[i] <= exact {
          BudgetIsUnique(budgets[i], exact, lengths[i], maxChars, total);
        } else {
          BudgetIsUnique(exact, budgets[i], lengths[i], maxChars, total);
        }
        BudgetIsAtMost(lengths[i], maxChars, total);
        LessIsAtMost(kept[i], budgets[i], lengths[i], 1, max, total);
      }
    }
    SumIsAtMost(kept, lengths, marks, max, total);
    if 0 < total {
      WholeIsBounded(Sum(kept), Sum(marks), max, total);
    } else {
      NothingToSum(kept);
    }
  }

  lemma {:induction false} NothingToSum(xs: seq<nat>)
    requires forall i :: 0 <= i < |xs| ==> xs[i] == 0
    ensures Sum(xs) == 0
  {
    if xs != [] {
      NothingToSum(xs[..|xs| - 1]);
    }
  }

  lemma {:induction false} MemberOfSum(xs: seq<nat>, i: nat)
    requires i < |xs|
    ensures xs[i] <= Sum(xs)
  {
    if i < |xs| - 1 {
      MemberOfSum(xs[..|xs| - 1], i);
    }
  }

  method SumLengths(content: seq<ContentBlock>) returns (total: nat)
    ensures total == Total(content)
    ensures forall i :: 0 <= i < |content| && Truncatable(content[i]) ==> 0 < total
  {
    total := 0;
    ghost var lengths := Lengths(content);
    for k := 0 to |content|
      invariant total == Sum(lengths[..k])
    {
      assert lengths[..k + 1][..k] == lengths[..k];
      total := total + Length(content[k]);
    }
    assert lengths[..|content|] == lengths;
    forall i | 0 <= i < |content| ensures Truncatable(content[i]) ==> 0 < total {
      MemberOfSum(lengths, i);
    }
  }

  /** Under the limit nothing changes; over it each text block keeps its budget and says what is gone. */
  method TruncateContentBlocks(content: seq<ContentBlock>, maxChars: int)
    returns (result: seq<ContentBlock>, ghost budgets: seq<nat>)
    ensures |result| == |content| && Budgeted(content, maxChars, budgets)
    ensures Total(content) <= maxChars ==> result == content
    ensures maxChars < Total(content) ==> Kept(content, result, budgets)
    ensures maxChars < Total(content) ==>
              forall i :: 0 <= i < |content| ==> GrowsOnlyByMarker(content[i], result[i], budgets[i])
    ensures Sum(Allowances(content, budgets)) <= Max(maxChars, 0) + MIN_CHARS_PER_BLOCK * Texts(content)
  {
    var total := SumLengths(content);
    var allotted := seq(|content|, i requires 0 <= i < |content| =>
      if Truncatable(content[i]) && 0 < total then Budget(Length(content[i]), maxChars, total) else 0);
    budgets := allotted;
    forall i | 0 <= i < |content| && Truncatable(content[i])
      ensures IsBudget(budgets[i], Length(content[i]), maxChars, total)
    {
      BudgetIs(Length(content[i]), maxChars, total);
    }
    KeptIsBounded(content, maxChars, budgets);
    if total <= maxChars {
      return content, budgets;
    }
    result := seq(|content|, i requires 0 <= i < |content| => Fit(content[i], allotted[i]));
    forall i | 0 <= i < |content| ensures Keeps(content[i], result[i], budgets[i]) {
      FitKeeps(content[i], budgets[i]);
    }
    forall i | 0 <= i < |content| ensures GrowsOnlyByMarker(content[i], result[i], budgets[i]) {
      FitGrowsIff(content[i], budgets[i]);
    }
  }

  ghost predicate Kept(content: seq<ContentBlock>, result: seq<ContentBlock>, budgets: seq<nat>)
    requires |result| == |content| == |budgets|
  {
    forall i :: 0 <= i < |content| ==> Keeps(content[i], result[i], budgets[i])
  }

  // ---------------------------------------------------------------------------
  // Truncation can lengthen a block
  // ---------------------------------------------------------------------------

  lemma {:induction false} DecimalLength(n: nat)
    ensures n < 10 ==> |Decimal(n)| == 1
    ensures 10 <= n < 100 ==> |Decimal(n)| == 2
    ensures 100 <= n ==> 3 <= |Decimal(n)| <= n / 10
  {
    if 10 <= n {
      DecimalLength(n / 10);
    }
  }

  /** The number a string of digits denotes. */
  ghost function Denoted(digits: string): int {
    if digits == "" then 0 else 10 * Denoted(digits[..|digits| - 1]) + (digits[|digits| - 1] as int - '0' as int)
  }

  lemma {:induction false} DecimalDenotes(n: nat)
    ensures Denoted(Decimal(n)) == n && (forall i :: 0 <= i < |Decimal(n)| ==> '0' <= Decimal(n)[i] <= '9')
  {
    if 10 <= n {
      DecimalDenotes(n / 10);
      assert Decimal(n)[..|Decimal(n)| - 1] == Decimal(n / 10);
    } else {
      assert Decimal(n)[..0] == "";
    }
  }

  /** The marker names the number of characters that are gone. */
  lemma MarkerNames(n: nat)
    ensures exists digits :: Denoted(digits) == n
              && Marker(n) == "\n[... " + digits
                 + " chars truncated. Reduce output scope (e.g., use limit param or narrower query). ...]\n"
  {
    DecimalDenotes(n);
  }

  /** The total counts every block that has a text, whatever its kind. */
  lemma TotalAdds(content: seq<ContentBlock>, b: ContentBlock)
    ensures Total([]) == 0
    ensures Total(content + [b]) == Total(content) + if b.text.Some? then |b.text.value| else 0
  {
    assert Lengths(content + [b])[..|content|] == Lengths(content);
  }

  /** The marker takes the place of a removed text of its own length from 94 characters on. */
  lemma MarkerLength(n: nat)
    ensures |Marker(n)| == 92 + |Decimal(n)|
    ensures |Marker(n)| <= n <==> 94 <= n
  {
    DecimalLength(n);
  }

  /** The result is no longer than the text if and only if at least 94 characters are removed. */
  lemma ShorterIff(text: string, budget: nat)
    requires budget < |text|
    ensures |Shorten(text, budget)| <= |text| <==> 94 <= |text| - budget
  {
    MarkerLength(|text| - budget);
    assert |text| - budget * 3 / 5 - (budget - budget * 3 / 5) == |text| - budget;
  }

  /** The block `c` made of `b` is longer exactly when `b` is a text from 1 to 93 characters over its budget. */
  ghost predicate GrowsOnlyByMarker(b: ContentBlock, c: ContentBlock, budget: nat) {
    Length(b) < Length(c) <==> Truncatable(b) && 0 < Length(b) - budget < 94
  }

  lemma FitGrowsIff(b: ContentBlock, budget: nat)
    ensures GrowsOnlyByMarker(b, Fit(b, budget), budget)
  {
    if Truncatable(b) && budget < Length(b) {
      ShorterIff(b.text.value, budget);
    }
  }

  /** One character over the minimum, and the block grows. */
  lemma TruncationCanLengthen()
    ensures var b := ContentBlock("text", Some(seq(501, i => 'a')), map[]);
            Total([b]) == 501 && Length(b) < Length(Fit(b, Budget(501, 500, 501)))
  {
    var b := ContentBlock("text", Some(seq(501, i => 'a')), map[]);
    assert Lengths([b]) == [501] && [501][..0] == [];
    assert Sum([501]) == Sum([501][..0]) + 501;
    assert Budget(501, 500, 501) == 500;
    ShorterIff(b.text.value, 500);
  }
}
