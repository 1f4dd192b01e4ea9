/**
 packages/shared/src/fix-prompt.ts: the prompt for a whole scan within its token budget,
 and the code fence of the prompt for one finding.
 */
module FixPrompt {
  import opened Decimal

  // ----- sizes

  /** `estimateTokens`: a token for every four characters, rounded up. */
  function EstimateTokens(text: string): nat {
    (|text| + 3) / 4
  }

  const REQUIREMENTS := "## Requirements\n"
    + "- Make the minimal change needed to resolve the finding(s).\n"
    + "- Do not change unrelated code.\n"
    + "- Run the relevant tests / build and confirm they pass.\n"
    + "- Provide the changes as a diff when done.\n"

  lemma RequirementsLength()
    ensures |REQUIREMENTS| == 207
  {
    assert |"## Requirements\n"| == 16;
    assert |"- Make the minimal change needed to resolve the finding(s).\n"| == 60;
    assert |"- Do not change unrelated code.\n"| == 32;
    assert |"- Run the relevant tests / build and confirm they pass.\n"| == 56;
    assert |"- Provide the changes as a diff when done.\n"| == 43;
  }

  // ----- the findings in order

  datatype Finding = Finding(title: string, rank: int, isOpen: bool)

  /** `a` belongs before or with `b`: higher severity first, then by title. */
  predicate Before(a: Finding, b: Finding, compare: (string, string) -> int) {
    a.rank > b.rank || (a.rank == b.rank && compare(a.title, b.title) <= 0)
  }

  /** What `localeCompare` is assumed to be. */
  ghost predicate IsCollation(compare: (string, string) -> int) {
    && (forall a, b :: compare(a, b) <= 0 || compare(b, a) <= 0)
    && (forall a, b, c :: compare(a, b) <= 0 && compare(b, c) <= 0 ==> compare(a, c) <= 0)
  }

  ghost predicate Ordered(fs: seq<Finding>, compare: (string, string) -> int) {
    forall i, j :: 0 <= i < j < |fs| ==> Before(fs[i], fs[j], compare)
  }

  function OpenOnes(findings: seq<Finding>): seq<Finding> {
    if findings == [] then []
    else OpenOnes(findings[..|findings| - 1]) + if findings[|findings| - 1].isOpen then [findings[|findings| - 1]] else []
  }

  function Insert(fs: seq<Finding>, f: Finding, compare: (string, string) -> int): seq<Finding> {
    if fs == [] || Before(fs[|fs| - 1], f, compare) then fs + [f]
    else Insert(fs[..|fs| - 1], f, compare) + [fs[|fs| - 1]]
  }

  function Sorted(fs: seq<Finding>, compare: (string, string) -> int): seq<Finding> {
    if fs == [] then [] else Insert(Sorted(fs[..|fs| - 1], compare), fs[|fs| - 1], compare)
  }

  lemma {:induction false} InsertAdds(fs: seq<Finding>, f: Finding, compare: (string, string) -> int)
    ensures multiset(Insert(fs, f, compare)) == multiset(fs) + multiset{f}
    ensures |Insert(fs, f, compare)| == |fs| + 1
    decreases |fs|
  {
    if fs != [] && !Before(fs[|fs| - 1], f, compare) {
      InsertAdds(fs[..|fs| - 1], f, compare);
      assert fs == fs[..|fs| - 1] + [fs[|fs| - 1]];
    }
  }

  lemma {:induction false} InsertBounded(fs: seq<Finding>, f: Finding, compare: (string, string) -> int, last: Finding)
    requires forall i :: 0 <= i < |fs| ==> Before(fs[i], last, compare)
    requires Before(f, last, compare)
    ensures forall i :: 0 <= i < |Insert(fs, f, compare)| ==> Before(Insert(fs, f, compare)[i], last, compare)
    decreases |fs|
  {
    if fs != [] && !Before(fs[|fs| - 1], f, compare) {
      InsertBounded(fs[..|fs| - 1], f, compare, last);
    }
  }

  lemma {:induction false} InsertOrdered(fs: seq<Finding>, f: Finding, compare: (string, string) -> int)
    requires IsCollation(compare) && Ordered(fs, compare)
    ensures Ordered(Insert(fs, f, compare), compare)
    decreases |fs|
  {
    if fs == [] || Before(fs[|fs| - 1], f, compare) {
      forall i | 0 <= i < |fs|
        ensures Before(fs[i], f, compare)
      {
        assert i < |fs| - 1 ==> Before(fs[i], fs[|fs| - 1], compare);
      }
    } else {
      var rest, last := fs[..|fs| - 1], fs[|fs| - 1];
      InsertOrdered(rest, f, compare);
      InsertBounded(rest, f, compare, last);
    }
  }

  /** The sorted findings are the open ones, in order. */
  lemma {:induction false} SortedKeeps(fs: seq<Finding>, compare: (string, string) -> int)
    requires IsCollation(compare)
    ensures multiset(Sorted(fs, compare)) == multiset(fs) && |Sorted(fs, compare)| == |fs|
    ensures Ordered(Sorted(fs, compare), compare)
    decreases |fs|
  {
    if fs != [] {
      var rest, last := fs[..|fs| - 1], fs[|fs| - 1];
      assert fs == rest + [last];
      SortedKeeps(rest, compare);
      InsertAdds(Sorted(rest, compare), last, compare);
      InsertOrdered(Sorted(rest, compare), last, compare);
    }
  }

  // ----- the sort is stable

  predicate SameRank(f: Finding, x: Finding, compare: (string, string) -> int) {
    f.rank == x.rank && compare(f.title, x.title) <= 0 && compare(x.title, f.title) <= 0
  }

  /** The findings that the order does not tell from `x`, as they stand. */
  function Ties(fs: seq<Finding>, x: Finding, compare: (string, string) -> int): seq<Finding> {
    if fs == [] then []
    else
      var last := fs[|fs| - 1];
      Ties(fs[..|fs| - 1], x, compare) + if SameRank(last, x, compare) then [last] else []
  }

  lemma {:induction false} InsertIsStable(fs: seq<Finding>, f: Finding, x: Finding, compare: (string, string) -> int)
    requires IsCollation(compare)
    ensures Ties(Insert(fs, f, compare), x, compare) == Ties(fs + [f], x, compare)
    decreases |fs|
  {
    assert (fs + [f])[..|fs|] == fs;
    if fs != [] && !Before(fs[|fs| - 1], f, compare) {
      var rest, last := fs[..|fs| - 1], fs[|fs| - 1];
      InsertIsStable(rest, f, x, compare);
      assert (rest + [f])[..|rest|] == rest;
      assert (Insert(rest, f, compare) + [last])[..|Insert(rest, f, compare)|] == Insert(rest, f, compare);
    }
  }

  /** Findings of one rank and one title stay in the order in which they were found. */
  lemma {:induction false} SortIsStable(fs: seq<Finding>, x: Finding, compare: (string, string) -> int)
    requires IsCollation(compare)
    ensures Ties(Sorted(fs, compare), x, compare) == Ties(fs, x, compare)
    decreases |fs|
  {
    if fs != [] {
      var rest, last := fs[..|fs| - 1], fs[|fs| - 1];
      SortIsStable(rest, x, compare);
      InsertIsStable(Sorted(rest, compare), last, x, compare);
      assert (Sorted(rest, compare) + [last])[..|Sorted(rest, compare)|] == Sorted(rest, compare);
    }
  }

  // ----- the open findings

  /** Exactly the open findings, as often as they occur. */
  lemma {:induction false} OpenOnesAre(findings: seq<Finding>, f: Finding)
    ensures multiset(OpenOnes(findings))[f] == if f.isOpen then multiset(findings)[f] else 0
    decreases |findings|
  {
    if findings != [] {
      OpenOnesAre(findings[..|findings| - 1], f);
      assert findings == findings[..|findings| - 1] + [findings[|findings| - 1]];
    }
  }

  // ----- the prompt

  datatype Prompt = Prompt(text: string, covered: nat, truncated: bool)

  function Concat(blocks: seq<string>): string {
    if blocks == [] then "" else Concat(blocks[..|blocks| - 1]) + blocks[|blocks| - 1]
  }

  function Footer(omitted: nat): string {
    if omitted == 0 then ""
    else "\n… and " + Print(omitted) + " more finding" + (if omitted == 1 then "" else "s") + " omitted (token limit).\n"
  }

  /** A block of text per finding; `render` sees the finding and the group of the one before it. */
  type Render = (seq<Finding>, nat) -> string

  function Blocks(sorted: seq<Finding>, render: Render): (blocks: seq<string>) {
    seq(|sorted|, i requires 0 <= i < |sorted| => render(sorted, i))
  }

  predicate Fits(header: string, blocks: seq<string>) {
    |header| + |Concat(blocks)| <= 4 * (1500 - 120)
  }

  /** The result: the longest prefix of blocks that fits, then what was left out, then the requirements. */
  ghost predicate IsPrompt(p: Prompt, header: string, blocks: seq<string>) {
    && p.covered <= |blocks|
    && p.text == header + Concat(blocks[..p.covered]) + "\n" + Footer(|blocks| - p.covered) + REQUIREMENTS
    && (p.truncated <==> p.covered < |blocks|)
    && (p.covered > 0 ==> Fits(header, blocks[..p.covered]))
    && (p.covered < |blocks| ==> !Fits(header, blocks[..p.covered + 1]))
  }

  method AssemblePrompt(header: string, blocks: seq<string>) returns (p: Prompt)
    ensures IsPrompt(p, header, blocks)
  {
    hide Footer, REQUIREMENTS;
    var prompt := header;
    var covered := 0;
    var truncated := false;
    for i := 0 to |blocks|
      invariant covered == i && !truncated
      invariant prompt == header + Concat(blocks[..i])
      invariant i > 0 ==> Fits(header, blocks[..i])
    {
      assert blocks[..i + 1][..i] == blocks[..i];
      assert prompt + blocks[i] == header + Concat(blocks[..i + 1]);
      if EstimateTokens(prompt + blocks[i]) > 1500 - 120 {
        truncated := true;
        break;
      }
      prompt := prompt + blocks[i];
      covered := covered + 1;
    }
    assert covered == |blocks| ==> blocks[..covered] == blocks;
    var omitted := |blocks| - covered;
    prompt := prompt + "\n";
    if truncated && omitted > 0 {
      FooterIs(omitted);
      prompt := prompt
        + ("\n… and " + Print(omitted) + " more finding" + (if omitted == 1 then "" else "s") + " omitted (token limit).\n");
    } else {
      NoFooter();
      assert prompt + Footer(0) == prompt;
    }
    prompt := prompt + REQUIREMENTS;
    p := Prompt(prompt, covered, truncated);
  }

  lemma FooterIs(omitted: nat)
    requires omitted > 0
    ensures Footer(omitted) == "\n… and " + Print(omitted) + " more finding" + (if omitted == 1 then "" else "s") + " omitted (token limit).\n"
  {
  }

  lemma NoFooter()
    ensures Footer(0) == ""
  {
  }

  method BuildScanFixPrompt(findings: seq<Finding>, header: string, render: Render, compare: (string, string) -> int)
    returns (p: Prompt)
    ensures IsPrompt(p, header, Blocks(Sorted(OpenOnes(findings), compare), render))
  {
    var sorted := Sorted(OpenOnes(findings), compare);
    p := AssemblePrompt(header, Blocks(sorted, render));
  }

  // ----- what the prompt covers

  /** The findings covered are the first of the open findings in order, so nothing omitted outranks one of them. */
  lemma CoversTheWorst(findings: seq<Finding>, header: string, render: Render, compare: (string, string) -> int, p: Prompt)
    requires IsCollation(compare)
    requires IsPrompt(p, header, Blocks(Sorted(OpenOnes(findings), compare), render))
    ensures var sorted := Sorted(OpenOnes(findings), compare);
            && (forall f :: multiset(sorted)[f] == if f.isOpen then multiset(findings)[f] else 0)
            && p.covered <= |sorted| && (p.truncated <==> p.covered < |sorted|)
            && forall i, j :: 0 <= i < p.covered <= j < |sorted| ==>
                 sorted[i].rank > sorted[j].rank
                 || (sorted[i].rank == sorted[j].rank && compare(sorted[i].title, sorted[j].title) <= 0)
  {
    SortedKeeps(OpenOnes(findings), compare);
    forall f
      ensures multiset(OpenOnes(findings))[f] == if f.isOpen then multiset(findings)[f] else 0
    {
      OpenOnesAre(findings, f);
    }
    hide OpenOnes, Sorted, Blocks;
  }

  /** The number covered is the largest that fits. */
  lemma CoversTheMost(p: Prompt, header: string, blocks: seq<string>, k: nat)
    requires IsPrompt(p, header, blocks) && k <= |blocks| && Fits(header, blocks[..k])
    ensures k <= p.covered
  {
    if p.covered < k {
      ConcatGrows(blocks, p.covered + 1, k);
      hide Concat;
    }
  }

  lemma {:induction false} ConcatGrows(blocks: seq<string>, j: nat, k: nat)
    requires j <= k <= |blocks|
    ensures |Concat(blocks[..j])| <= |Concat(blocks[..k])|
    decreases k
  {
    if j < k {
      assert blocks[..k][..k - 1] == blocks[..k - 1];
      ConcatGrows(blocks, j, k - 1);
    }
  }

  // ----- the budget

  function Pow10(k: nat): nat {
    if k == 0 then 1 else 10 * Pow10(k - 1)
  }

  lemma {:induction false} PrintLength(n: nat, k: nat)
    requires k > 0 && n < Pow10(k)
    ensures |Print(n)| <= k
    decreases k
  {
    if n >= 10 {
      assert k > 1;
      PrintLength(n / 10, k - 1);
    }
  }

  lemma FooterLength(omitted: nat, k: nat)
    requires k > 0 && omitted < Pow10(k)
    ensures |Footer(omitted)| <= 45 + k
  {
    PrintLength(omitted, k);
    assert |"\n… and "| == 7 && |" more finding"| == 13 && |" omitted (token limit).\n"| == 24;
  }

  lemma PromptLength(p: Prompt, header: string, blocks: seq<string>)
    requires IsPrompt(p, header, blocks)
    ensures |p.text| == |header| + |Concat(blocks[..p.covered])| + 1 + |Footer(|blocks| - p.covered)| + 207
  {
    RequirementsLength();
    hide Footer, Concat, REQUIREMENTS;
  }

  /**
   With a header of at most 1380 tokens, of four characters each, the prompt is within 1500
   unless the omitted count has 228 digits.
   */
  lemma WithinBudget(p: Prompt, header: string, blocks: seq<string>)
    requires IsPrompt(p, header, blocks) && |header| <= 5520 && |blocks| < Pow10(227)
    ensures |p.text| <= 6000
  {
    PromptLength(p, header, blocks);
    FooterLength(|blocks| - p.covered, 227);
    if p.covered == 0 {
      assert Concat(blocks[..0]) == "";
    }
    hide Footer, Concat, Pow10;
  }

  lemma ArrayLengthsAreShort(n: nat)
    requires n < 0x1_0000_0000
    ensures n < Pow10(10)
  {
    assert Pow10(2) == 100;
    assert Pow10(4) == 100 * Pow10(2);
    assert Pow10(6) == 100 * Pow10(4);
    assert Pow10(8) == 100 * Pow10(6);
    assert Pow10(10) == 100 * Pow10(8);
  }

  /**
   When the budget holds: for lists as long as a JavaScript array can be, exactly when the
   header fits with the headroom, or fits with what follows when nothing can be covered.
   */
  lemma BudgetIffHeaderFits(p: Prompt, header: string, blocks: seq<string>)
    requires IsPrompt(p, header, blocks) && |blocks| < 0x1_0000_0000
    ensures |p.text| <= 6000 <==> |header| <= 5520 || |header| + 1 + |Footer(|blocks|)| + 207 <= 6000
  {
    PromptLength(p, header, blocks);
    ArrayLengthsAreShort(|blocks|);
    FooterLength(|blocks| - p.covered, 10);
    if p.covered == 0 {
      assert Concat(blocks[..0]) == "";
    }
    hide Footer, Concat, Pow10;
  }

  // ----- the fence

  /** The control characters taken out; tab, line feed and carriage return stay. */
  predicate IsControl(c: char) {
    var n := c as int;
    n <= 8 || n == 0xB || n == 0xC || 0xE <= n <= 0x1F || n == 0x7F
  }

  function Sanitize(text: string): string {
    if text == "" then ""
    else Sanitize(text[..|text| - 1]) + if IsControl(text[|text| - 1]) then "" else [text[|text| - 1]]
  }

  /** Control characters go, every other character stays as often as it occurs. */
  lemma {:induction false} SanitizeIsExact(text: string, c: char)
    ensures var n := c as int;
            var control := 0 <= n <= 8 || n == 11 || n == 12 || 14 <= n <= 31 || n == 127;
            multiset(Sanitize(text))[c] == if control then 0 else multiset(text)[c]
    decreases |text|
  {
    if text != "" {
      var rest, last := text[..|text| - 1], text[|text| - 1];
      SanitizeIsExact(rest, c);
      assert text == rest + [last];
      SanitizeLast(rest, last);
      hide Sanitize;
    }
  }

  lemma SanitizeLast(text: string, c: char)
    ensures Sanitize(text + [c]) == Sanitize(text) + if IsControl(c) then "" else [c]
  {
    assert (text + [c])[..|text|] == text;
  }

  lemma {:induction false} SanitizeKeepsOrder(text: string)
    requires forall i :: 0 <= i < |text| ==> !IsControl(text[i])
    ensures Sanitize(text) == text
    decreases |text|
  {
    if text != "" {
      SanitizeKeepsOrder(text[..|text| - 1]);
    }
  }

  /** Length of the run of backticks a text ends with. */
  function TrailingRun(text: string): (n: nat)
    ensures n <= |text|
  {
    if text == "" || text[|text| - 1] != '`' then 0 else TrailingRun(text[..|text| - 1]) + 1
  }

  /** The longest run of backticks. */
  function LongestRun(text: string): nat {
    if text == "" then 0
    else
      var before, here := LongestRun(text[..|text| - 1]), TrailingRun(text);
      if here > before then here else before
  }

  function Ticks(n: nat): (s: string)
    ensures |s| == n && forall i :: 0 <= i < n ==> s[i] == '`'
  {
    seq(n, _ => '`')
  }

  function FenceFor(text: string): string {
    var max := LongestRun(Sanitize(text));
    Ticks(if max + 1 > 3 then max + 1 else 3)
  }

  predicate OccursAt(part: string, text: string, i: nat) {
    i + |part| <= |text| && text[i..i + |part|] == part
  }

  ghost predicate Occurs(part: string, text: string) {
    exists i: nat :: OccursAt(part, text, i)
  }

  lemma {:induction false} TrailingRunIs(text: string, n: nat)
    requires n <= |text|
    ensures TrailingRun(text) >= n <==> forall k :: |text| - n <= k < |text| ==> text[k] == '`'
    decreases |text|
  {
    if n > 0 && text[|text| - 1] == '`' {
      var rest := text[..|text| - 1];
      TrailingRunIs(rest, n - 1);
      assert forall k :: 0 <= k < |rest| ==> rest[k] == text[k];
    } else if n > 0 {
      assert !(forall k :: |text| - n <= k < |text| ==> text[k] == '`');
    }
  }

  lemma {:induction false} RunsAreCounted(text: string, n: nat, i: nat)
    requires OccursAt(Ticks(n), text, i)
    ensures LongestRun(text) >= n
    decreases |text|
  {
    if text != "" {
      var rest := text[..|text| - 1];
      if i + n < |text| {
        assert rest[i..i + n] == text[i..i + n];
        RunsAreCounted(rest, n, i);
      } else {
        assert forall k :: i <= k < |text| ==> text[k] == text[i..i + n][k - i];
        TrailingRunIs(text, n);
      }
    }
  }

  lemma {:induction false} LongestRunOccurs(text: string, n: nat) returns (i: nat)
    requires n <= LongestRun(text)
    ensures OccursAt(Ticks(n), text, i)
    decreases |text|
  {
    if text == "" || n == 0 {
      i := 0;
      assert text[0..0] == Ticks(0);
    } else {
      var rest := text[..|text| - 1];
      if n <= LongestRun(rest) {
        i := LongestRunOccurs(rest, n);
        assert rest[i..i + n] == text[i..i + n];
      } else {
        i := |text| - n;
        TrailingRunIs(text, n);
        assert text[i..i + n] == Ticks(n);
      }
    }
  }

  /** No fence is inside the evidence, and any shorter one of three or more backticks would be. */
  lemma FenceIsShortestSafe(evidence: string)
    ensures !Occurs(FenceFor(evidence), Sanitize(evidence))
    ensures |FenceFor(evidence)| >= 3
    ensures forall n :: 3 <= n < |FenceFor(evidence)| ==> Occurs(Ticks(n), Sanitize(evidence))
  {
    var text, fence := Sanitize(evidence), FenceFor(evidence);
    if i: nat :| OccursAt(fence, text, i) {
      RunsAreCounted(text, |fence|, i);
    }
    forall n | 3 <= n < |fence|
      ensures Occurs(Ticks(n), text)
    {
      var i := LongestRunOccurs(text, n);
    }
  }

  /** The evidence section of the prompt for one finding, from its opening fence. */
  function Fenced(evidence: string): string {
    FenceFor(evidence) + "\n" + Sanitize(evidence) + "\n" + FenceFor(evidence) + "\n"
  }

  /** After the opening fence the next fence is the closing one, whatever the evidence is. */
  lemma FenceClosesAtTheEnd(evidence: string, i: nat)
    requires OccursAt(FenceFor(evidence), Fenced(evidence), i) && i > 0
    ensures i == |FenceFor(evidence)| + 1 + |Sanitize(evidence)| + 1
  {
    var fence, text, all := FenceFor(evidence), Sanitize(evidence), Fenced(evidence);
    var n := |fence|;
    FenceIsShortestSafe(evidence);
    FenceHasOnlyTicks(evidence);
    hide FenceFor, Sanitize, OccursAt;
    assert all[n] == '\n' && all[n + 1 + |text|] == '\n' && all[n + 1 + |text| + 1 + n] == '\n';
    if i <= n {
      NoFenceAcross(fence, all, i, n);
    } else if i < n + 2 + |text| && n + 1 + |text| < i + n {
      NoFenceAcross(fence, all, i, n + 1 + |text|);
    } else if i < n + 2 + |text| {
      NoFenceInside(fence, text, i);
    } else if i + n <= |all| && n + 1 + |text| + 1 + n < i + n {
      NoFenceAcross(fence, all, i, n + 1 + |text| + 1 + n);
    }
    FitsIn(fence, all, i);
  }

  lemma FitsIn(part: string, text: string, i: nat)
    requires OccursAt(part, text, i)
    ensures i + |part| <= |text|
  {
  }

  /** A fence cannot lie across a line break. */
  lemma NoFenceAcross(fence: string, all: string, i: nat, k: nat)
    requires i <= k < i + |fence| && k < |all| && all[k] == '\n'
    requires forall j :: 0 <= j < |fence| ==> fence[j] == '`'
    ensures !OccursAt(fence, all, i)
  {
    assert fence[k - i] == '`';
    if i + |fence| <= |all| {
      assert all[i..i + |fence|][k - i] == all[k];
    }
  }

  lemma NoFenceInside(fence: string, text: string, i: nat)
    requires !Occurs(fence, text) && |fence| + 1 <= i && i + |fence| <= |fence| + 1 + |text|
    ensures !OccursAt(fence, fence + "\n" + text + "\n" + fence + "\n", i)
  {
    var n := |fence|;
    var all := fence + "\n" + text + "\n" + fence + "\n";
    assert all[i..i + n] == text[i - n - 1..i - 1];
    assert !OccursAt(fence, text, i - n - 1);
  }

  lemma FenceHasOnlyTicks(evidence: string)
    ensures forall k :: 0 <= k < |FenceFor(evidence)| ==> FenceFor(evidence)[k] == '`'
  {
  }
}
