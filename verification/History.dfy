/** Rebuilding a conversation's transcript for a dispatch prompt. */
module History {
  import opened Wrappers
  import opened Text

  const TOOL_ENTRY_TRUNCATE := 4096
  const CONTEXT_ROW_CAP := 1000

  datatype Role = User | Assistant | System | Tool

  datatype Message = Message(role: Role, toolName: string, toolInput: Option<string>, toolOutput: Option<string>,
                             content: string)

  // ---- rendering one row ----

  function Truncate(s: string): string {
    if |s| > TOOL_ENTRY_TRUNCATE then s[..TOOL_ENTRY_TRUNCATE] + ['\U{2026}'] else s
  }

  function ToolText(s: string): string { Truncate(Strip(s)) }

  function Or(s: Option<string>, default: string): string {
    if s.Some? then s.value else default
  }

  function Render(m: Message): Option<string> {
    match m.role
    case User => Some("User: " + m.content)
    case Assistant => Some("Assistant: " + m.content)
    case Tool =>
      if m.toolName != "" then Some("Tool: Used " + m.toolName + "(" + ToolText(Or(m.toolInput, "")) + ")")
      else Some("Tool: \U{2192} " + ToolText(Or(m.toolOutput, m.content)))
    case System => None
  }

  function Estimate(text: string): nat { (|text| + 3) / 4 }

  function Cost(line: string): nat { Estimate(line) + 1 }

  // ---- the walk ----

  function Rendered(rows: seq<Message>, render: Message -> Option<string>): (r: seq<Option<string>>)
    ensures |r| == |rows|
  {
    seq(|rows|, i requires 0 <= i < |rows| => render(rows[i]))
  }

  /** The lines that exist, in the order given. */
  function Present(opts: seq<Option<string>>): seq<string> {
    if opts == [] then []
    else
      var last := opts[|opts| - 1];
      Present(opts[..|opts| - 1]) + (if last.Some? then [last.value] else [])
  }

  /** The renderable rows' lines, in the order of the rows. */
  function Lines(rows: seq<Message>): seq<string> { Present(Rendered(rows, Render)) }

  /** Cost of the first k lines. */
  function Total(lines: seq<string>, k: nat): nat
    requires k <= |lines|
  {
    if k == 0 then 0 else Total(lines, k - 1) + Cost(lines[k - 1])
  }

  function Reversed(lines: seq<string>): (r: seq<string>)
    ensures |r| == |lines| && forall i :: 0 <= i < |r| ==> r[i] == lines[|lines| - 1 - i]
  {
    if lines == [] then [] else [lines[|lines| - 1]] + Reversed(lines[..|lines| - 1])
  }

  /** k newest lines are kept: as many as fit the budget, but at least the newest one. */
  ghost predicate LongestFit(lines: seq<string>, budget: int, k: nat) {
    && k <= |lines|
    && (lines != [] ==> k >= 1)
    && (k > 1 ==> Total(lines, k) <= budget)
    && forall j :: k < j <= |lines| ==> Total(lines, j) > budget
  }

  /** The transcript: the longest fit, oldest line first. */
  ghost predicate Kept(lines: seq<string>, budget: int, rendered: seq<string>) {
    exists k: nat :: LongestFit(lines, budget, k) && rendered == Reversed(lines[..k])
  }

  function Newest(rows: seq<Message>): seq<Message> {
    if |rows| <= CONTEXT_ROW_CAP then rows else rows[..CONTEXT_ROW_CAP]
  }

  /** Renders the newest rows and returns the lines that fit, in chronological order. */
  method RebuildHistory(rows: seq<Message>, budget: int) returns (rendered: seq<string>)
    ensures Kept(Lines(Newest(rows)), budget, rendered)
    ensures |rows| <= 1000 ==> Kept(Lines(rows), budget, rendered)
    ensures |rows| > 1000 ==> Kept(Lines(rows[..1000]), budget, rendered)
  {
    rendered := Walk(Newest(rows), Render, budget);
  }

  /** Walks from the newest row to the oldest until the next line would exceed the budget. */
  method Walk(fetched: seq<Message>, render: Message -> Option<string>, budget: int) returns (rendered: seq<string>)
    ensures Kept(Present(Rendered(fetched, render)), budget, rendered)
  {
    ghost var opts := Rendered(fetched, render);
    ghost var all := Present(opts);
    var renderedRev, used := [], 0;
    for i := 0 to |fetched|
      invariant renderedRev == Present(opts[..i]) && renderedRev <= all
      invariant used == Total(all, |renderedRev|) && (|renderedRev| > 1 ==> used <= budget)
    {
      var line := render(fetched[i]);
      PresentStep(opts, i);
      if line.Some? {
        var cost := Cost(line.value);
        TotalStep(all, renderedRev, line.value);
        if used + cost > budget && renderedRev != [] {
          BudgetExceeded(all, renderedRev, budget);
          return Reversed(renderedRev);
        }
        renderedRev := renderedRev + [line.value];
        used := used + cost;
      }
    }
    assert opts[..|fetched|] == opts;
    AllFit(all, budget);
    return Reversed(renderedRev);
  }

  lemma PresentStep(opts: seq<Option<string>>, i: nat)
    requires i < |opts|
    ensures Present(opts[..i + 1]) == Present(opts[..i]) + (if opts[i].Some? then [opts[i].value] else [])
    ensures Present(opts[..i + 1]) <= Present(opts)
  {
    assert opts[..i + 1][..i] == opts[..i];
    PresentPrefix(opts, i + 1);
  }

  lemma {:induction false} PresentPrefix(opts: seq<Option<string>>, i: nat)
    requires i <= |opts|
    ensures Present(opts[..i]) <= Present(opts)
    decreases |opts| - i
  {
    if i == |opts| {
      assert opts[..i] == opts;
    } else {
      assert opts[..i + 1][..i] == opts[..i];
      PresentPrefix(opts, i + 1);
    }
  }

  lemma {:induction false} TotalGrows(lines: seq<string>, j: nat, k: nat)
    requires j <= k <= |lines|
    ensures Total(lines, j) + (k - j) <= Total(lines, k)
    decreases k - j
  {
    if j < k {
      TotalGrows(lines, j, k - 1);
    }
  }

  lemma TotalStep(lines: seq<string>, first: seq<string>, line: string)
    requires first + [line] <= lines
    ensures |first| < |lines| && Total(lines, |first| + 1) == Total(lines, |first|) + Cost(line)
  {
    assert (first + [line])[|first|] == line;
  }

  lemma BudgetExceeded(lines: seq<string>, first: seq<string>, budget: int)
    requires 1 <= |first| < |lines| && first <= lines && (|first| > 1 ==> Total(lines, |first|) <= budget)
    requires Total(lines, |first| + 1) > budget
    ensures Kept(lines, budget, Reversed(first))
  {
    assert LongestFit(lines, budget, |first|) by { NoLongerFit(lines, |first|, budget); }
    assert lines[..|first|] == first;
  }

  lemma NoLongerFit(lines: seq<string>, k: nat, budget: int)
    requires k < |lines| && Total(lines, k + 1) > budget
    ensures forall j :: k < j <= |lines| ==> Total(lines, j) > budget
  {
    forall j | k < j <= |lines| ensures Total(lines, j) > budget {
      TotalGrows(lines, k + 1, j);
    }
  }

  lemma AllFit(lines: seq<string>, budget: int)
    requires |lines| > 1 ==> Total(lines, |lines|) <= budget
    ensures Kept(lines, budget, Reversed(lines))
  {
    assert LongestFit(lines, budget, |lines|);
    assert lines[..|lines|] == lines;
  }

  /** There is only one answer. */
  lemma LongestFitUnique(lines: seq<string>, budget: int, j: nat, k: nat)
    requires LongestFit(lines, budget, j) && LongestFit(lines, budget, k)
    ensures j == k
  {
  }

  // ---- what a line says and costs ----

  /** `shown` is the visible part of a tool entry: stripped, and beyond 4096
      characters cut there and marked with an ellipsis. */
  ghost predicate Shows(entry: string, shown: string) {
    exists lo: nat, hi: nat :: ShowsPart(entry, lo, hi, shown)
  }

  ghost predicate ShowsPart(entry: string, lo: nat, hi: nat, shown: string) {
    Core(entry, lo, hi)
    && shown == if hi - lo <= 4096 then entry[lo..hi] else entry[lo..lo + 4096] + ['\U{2026}']
  }

  lemma ToolTextShows(entry: string)
    ensures Shows(entry, ToolText(entry))
  {
    var lo, hi := StripShape(entry);
    assert hi - lo > 4096 ==> entry[lo..hi][..4096] == entry[lo..lo + 4096];
    assert ShowsPart(entry, lo, hi, ToolText(entry));
  }

  /** Every line says who spoke: the user, the assistant or a tool, and for a tool
      what it was called with or, lacking a name, what it answered.  System rows have
      no line. */
  lemma RenderMeaning(m: Message)
    ensures Render(m).None? <==> m.role == System
    ensures m.role == User ==> Render(m) == Some("User: " + m.content)
    ensures m.role == Assistant ==> Render(m) == Some("Assistant: " + m.content)
    ensures m.role == Tool && m.toolName != "" ==> exists shown ::
      && Shows(if m.toolInput.Some? then m.toolInput.value else "", shown)
      && Render(m) == Some("Tool: Used " + m.toolName + "(" + shown + ")")
    ensures m.role == Tool && m.toolName == "" ==> exists shown ::
      && Shows(if m.toolOutput.Some? then m.toolOutput.value else m.content, shown)
      && Render(m) == Some("Tool: " + ['\U{2192}'] + " " + shown)
  {
    ToolTextShows(Or(m.toolInput, ""));
    ToolTextShows(Or(m.toolOutput, m.content));
    hide Shows, ToolText;
    assert "Tool: \U{2192} " == "Tool: " + ['\U{2192}'] + " ";
  }

  /** A line costs a token for every four characters or part of them, and one more. */
  lemma CostExact(line: string)
    ensures 4 * (Cost(line) - 2) < |line| <= 4 * (Cost(line) - 1)
  {
  }

  // ---- fetching a prefix of a tool entry ----

  lemma CoreUnique(s: string, lo: nat, hi: nat, lo': nat, hi': nat)
    requires Core(s, lo, hi) && Core(s, lo', hi') && lo < hi
    ensures lo == lo' && hi == hi'
  {
    assert s[lo] in s;
  }

  /** A tool entry may be fetched as a prefix of at least 4097 characters.  It
      then renders as the whole entry would exactly when nothing visible was cut
      off or the prefix still overflows the limit once its blanks are stripped. */
  lemma PrefixRendersSame(text: string, cap: nat)
    requires TOOL_ENTRY_TRUNCATE < cap < |text|
    ensures ToolText(text[..cap]) == ToolText(text)
      <==> Blank(text[cap..]) || |Strip(text[..cap])| > TOOL_ENTRY_TRUNCATE
  {
    var P := text[..cap];
    var lo, hi := StripShape(P);
    var lo', hi' := StripShape(text);
    assert forall i :: 0 <= i < cap ==> P[i] == text[i];
    assert forall i :: cap <= i < |text| ==> text[i] == text[cap..][i - cap];
    if Blank(text[cap..]) {
      forall i | cap <= i < |text| ensures Space(text[i]) {
        assert text[i] in text[cap..];
      }
      if lo < hi {
        assert Core(text, lo, hi);
        CoreUnique(text, lo, hi, lo', hi');
        assert P[lo..hi] == text[lo..hi];
      } else {
        BlankConcat(text, cap);
        assert Strip(text) == "" == Strip(P);
      }
    } else {
      var v :| 0 <= v < |text[cap..]| && !Space(text[cap..][v]);
      assert !Space(text[cap + v]);
      assert hi' > cap;
      if lo < hi {
        assert lo' == lo;
        assert text[lo..hi'][..hi - lo] == P[lo..hi];
        if hi - lo > TOOL_ENTRY_TRUNCATE {
          assert text[lo..hi'][..TOOL_ENTRY_TRUNCATE] == P[lo..hi][..TOOL_ENTRY_TRUNCATE];
        }
      }
    }
  }

  lemma BlankConcat(text: string, cap: nat)
    requires cap <= |text| && Blank(text[..cap]) && forall i :: cap <= i < |text| ==> Space(text[i])
    ensures Strip(text) == ""
  {
    var lo, hi := StripShape(text);
    forall i | 0 <= i < cap ensures Space(text[i]) {
      assert text[i] in text[..cap];
    }
  }

  /** At the fetch cap used, 4097: the prefix is enough exactly when nothing
      visible follows it or it neither starts nor ends with a blank. */
  lemma FetchCapExact(text: string)
    requires |text| > TOOL_ENTRY_TRUNCATE + 1
    ensures ToolText(text[..TOOL_ENTRY_TRUNCATE + 1]) == ToolText(text)
      <==> Blank(text[TOOL_ENTRY_TRUNCATE + 1..]) || (!Space(text[0]) && !Space(text[TOOL_ENTRY_TRUNCATE]))
  {
    var cap := TOOL_ENTRY_TRUNCATE + 1;
    PrefixRendersSame(text, cap);
    var lo, hi := StripShape(text[..cap]);
    assert text[..cap][0] == text[0] && text[..cap][cap - 1] == text[cap - 1];
  }

  /** Such texts exist: one leading blank is enough to lose the ellipsis. */
  lemma LeadingBlankLosesEllipsis(text: string)
    requires |text| == TOOL_ENTRY_TRUNCATE + 2 && Space(text[0]) && forall i :: 0 < i < |text| ==> !Space(text[i])
    ensures ToolText(text[..TOOL_ENTRY_TRUNCATE + 1]) == text[1..TOOL_ENTRY_TRUNCATE + 1]
    ensures ToolText(text) == text[1..TOOL_ENTRY_TRUNCATE + 1] + ['\U{2026}']
  {
    var cap := TOOL_ENTRY_TRUNCATE + 1;
    var P := text[..cap];
    var lo, hi := StripShape(P);
    var lo', hi' := StripShape(text);
    assert P[0] == text[0] && P[1] == text[1] && P[cap - 1] == text[cap - 1];
    assert Core(P, 1, cap) && Core(text, 1, cap + 1);
    CoreUnique(P, 1, cap, lo, hi);
    CoreUnique(text, 1, cap + 1, lo', hi');
  }
}
