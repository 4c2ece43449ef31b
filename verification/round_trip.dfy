/**
 * The reply format the prompt of `get_gemini_response` asks for (app.py:52-72)
 * and the parser reads back: one line per numeric header with its value,
 * then each remaining header on a line of its own, followed by its content
 * (a `"- "` line per list item, or the summary text).
 *
 * `Render` writes a record in that format, and `ParseRender` proves that the
 * parser gives back exactly that record for every record the format can
 * express.
 */
module RoundTrip {
  import opened Wrappers
  import opened Text
  import opened Score
  import opened ReplyParser
  import opened ParserProperties

  // ---------------------------------------------------------------------
  // What the format can express

  /** A list item the format can carry: one non-empty line, not ending in whitespace, free of header text. */
  predicate IsItem(t: string) {
    EndsTidy(t) && '\n' !in t && HeaderFree(t)
  }

  /** A non-empty text that does not end in whitespace. */
  predicate EndsTidy(t: string) {
    t != "" && !IsSpace(t[|t| - 1])
  }

  predicate AllItems(items: seq<string>) {
    forall i :: 0 <= i < |items| ==> IsItem(items[i])
  }

  /** A summary line: an item that does not start with whitespace either. */
  predicate IsSummaryLine(t: string) {
    IsItem(t) && !IsSpace(t[0])
  }

  /** The summary text of one summary line, or of none: the parser adds one space per line. */
  predicate IsSummary(t: string) {
    t == "" || (t[|t| - 1] == ' ' && IsSummaryLine(t[..|t| - 1]))
  }

  /** The records a reply in the format can express. */
  predicate Renderable(r: Record) {
    && IsNatText(r.atsScore) && IsNatText(r.globalPercentile)
    && (forall s :: IsListSection(s) ==> AllItems(r.Items(s)))
    && IsSummary(r.profileSummary)
  }

  // ---------------------------------------------------------------------
  // Writing a record in the format

  /** The line of a numeric header with its value. */
  function ScoreLine(s: Section, value: string): string {
    Header(s) + " " + value
  }

  /** One `"- "` line per item. */
  function Dashed(items: seq<string>): (lines: seq<string>)
    ensures |lines| == |items|
  {
    seq(|items|, i requires 0 <= i < |items| => "- " + items[i])
  }

  /** A list header followed by its items. */
  function ListBlock(s: Section, items: seq<string>): seq<string> {
    [Header(s)] + Dashed(items)
  }

  /** The summary header followed by the summary line, without the space the parser adds back. */
  function SummaryBlock(summary: string): seq<string> {
    [Header(ProfileSummary)] + (if summary == "" then [] else [summary[..|summary| - 1]])
  }

  /** The lines of the reply that states `r`, headers in the order of the prompt. */
  function Render(r: Record): (lines: seq<string>)
    ensures |lines| >= 1
  {
    [ScoreLine(AtsScore, r.atsScore), ScoreLine(GlobalPercentile, r.globalPercentile)]
    + ListBlock(KeySkills, r.keySkills)
    + ListBlock(MissingSkills, r.missingSkills)
    + ListBlock(ExperienceAnalysis, r.experienceAnalysis)
    + SummaryBlock(r.profileSummary)
    + ListBlock(ImprovementSuggestions, r.improvementSuggestions)
    + ListBlock(AtsOptimizationTips, r.atsOptimizationTips)
  }

  /** The reply text that states `r`. */
  function RenderText(r: Record): string {
    Join(Render(r), '\n')
  }

  /** `r` with the list of section `s` replaced by `items`. */
  function Fill(r: Record, s: Section, items: seq<string>): (r': Record)
    requires IsListSection(s)
    ensures r'.Items(s) == items
    ensures forall t :: IsListSection(t) && t != s ==> r'.Items(t) == r.Items(t)
    ensures r'.atsScore == r.atsScore && r'.globalPercentile == r.globalPercentile
    ensures r'.profileSummary == r.profileSummary
  {
    match s
    case KeySkills => r.(keySkills := items)
    case MissingSkills => r.(missingSkills := items)
    case ExperienceAnalysis => r.(experienceAnalysis := items)
    case ImprovementSuggestions => r.(improvementSuggestions := items)
    case AtsOptimizationTips => r.(atsOptimizationTips := items)
  }

  /** Two records that agree on every field are equal. */
  lemma SameRecord(r1: Record, r2: Record)
    requires r1.atsScore == r2.atsScore && r1.globalPercentile == r2.globalPercentile
    requires r1.profileSummary == r2.profileSummary
    requires forall t :: IsListSection(t) ==> r1.Items(t) == r2.Items(t)
    ensures r1 == r2
  {
    assert r1.Items(KeySkills) == r2.Items(KeySkills);
    assert r1.Items(MissingSkills) == r2.Items(MissingSkills);
    assert r1.Items(ExperienceAnalysis) == r2.Items(ExperienceAnalysis);
    assert r1.Items(ImprovementSuggestions) == r2.Items(ImprovementSuggestions);
    assert r1.Items(AtsOptimizationTips) == r2.Items(AtsOptimizationTips);
  }

  // ---------------------------------------------------------------------
  // The loop over concatenated lines

  /** The loop on two lines is two steps. */
  lemma RunTwo(st: State, lines: seq<string>)
    requires |lines| == 2
    ensures Run(st, lines) == Step(Step(st, lines[0]), lines[1])
  {
    assert lines == [lines[0]] + [lines[1]];
    RunCons(st, lines[0], [lines[1]]);
    assert [lines[1]] == [lines[1]] + [];
    RunCons(Step(st, lines[0]), lines[1], []);
  }

  /** The loop on `a + b` is the loop on `a`, then the loop on `b`. */
  lemma {:induction false} RunAppend(st: State, a: seq<string>, b: seq<string>)
    ensures Run(st, a + b) == Run(Run(st, a), b)
    decreases |b|
  {
    if b == [] {
      assert a + b == a;
    } else {
      var init := b[..|b| - 1];
      assert (a + b)[..|a + b| - 1] == a + init;
      assert (a + b)[|a + b| - 1] == b[|b| - 1];
      RunAppend(st, a, init);
    }
  }

  // ---------------------------------------------------------------------
  // Header lines

  /** The shape of every header: a capital letter, then capitals and spaces, then its only colon. */
  predicate IsHeaderText(h: string) {
    && |h| >= 2 && 'A' <= h[0] <= 'Z' && h[|h| - 1] == ':'
    && forall i :: 0 <= i < |h| - 1 ==> 'A' <= h[i] <= 'Z' || h[i] == ' '
  }

  /** A header text neither starts nor ends with whitespace. */
  lemma HeaderTextEnds(h: string)
    requires IsHeaderText(h)
    ensures !IsSpace(h[0]) && !IsSpace(h[|h| - 1])
  {
  }

  /** A header text is its own upper-case form, has no colon before its end and no line break ... */
  lemma HeaderTextFacts(h: string)
    requires IsHeaderText(h)
    ensures Upper(h) == h
    ensures ':' !in h[..|h| - 1] && '\n' !in h
  {
    UpperFixed(h);
  }

  /** ... and is its own stripped form. */
  lemma HeaderTextStripped(h: string)
    requires IsHeaderText(h)
    ensures Strip(h) == h
  {
    HeaderTextEnds(h);
    assert "" + h + "" == h;
    StripPadded("", h, "");
  }

  // The header shape is checked on three groups of sections, and the
  // suffix facts below on three groups of pairs, so that each proof
  // obligation unfolds only a few header literals.

  lemma HeaderTextEarly(s: Section)
    requires Rank(s) <= 2
    ensures IsHeaderText(Header(s))
  {
  }

  lemma HeaderTextMiddle(s: Section)
    requires 3 <= Rank(s) <= 5
    ensures IsHeaderText(Header(s))
  {
  }

  lemma HeaderTextLate(s: Section)
    requires 6 <= Rank(s)
    ensures IsHeaderText(Header(s))
  {
  }

  /** Every header has the shape of a header text. */
  lemma HeaderShape(s: Section)
    ensures IsHeaderText(Header(s))
  {
    if Rank(s) <= 2 {
      HeaderTextEarly(s);
    } else if Rank(s) <= 5 {
      HeaderTextMiddle(s);
    } else {
      HeaderTextLate(s);
    }
  }

  /** In a line whose only colon is at `j`, a pattern ending in a colon can only occur ending at `j`. */
  lemma ColonAnchored(line: string, pat: string, j: nat)
    requires Contains(line, pat) && pat != [] && pat[|pat| - 1] == ':'
    requires j < |line| && forall i :: 0 <= i < |line| && line[i] == ':' ==> i == j
    ensures |pat| <= j + 1 && line[j + 1 - |pat|] == pat[0]
  {
    ContainsWitness(line, pat);
    var i :| OccursAt(line, pat, i);
    assert line[i..i + |pat|][|pat| - 1] == ':';
    assert line[i..i + |pat|][0] == pat[0];
  }

  lemma NotSuffixOfFirstFive(s: Section, t: Section)
    requires Rank(t) < Rank(s) <= 5
    ensures |Header(t)| <= |Header(s)| ==> Header(s)[|Header(s)| - |Header(t)|] != Header(t)[0]
  {
  }

  lemma NotSuffixOfSixth(t: Section)
    requires Rank(t) < 6
    ensures |Header(t)| <= |Header(ImprovementSuggestions)| ==> Header(ImprovementSuggestions)[|Header(ImprovementSuggestions)| - |Header(t)|] != Header(t)[0]
  {
  }

  lemma NotSuffixOfLast(t: Section)
    requires Rank(t) < 7
    ensures |Header(t)| <= |Header(AtsOptimizationTips)| ==> Header(AtsOptimizationTips)[|Header(AtsOptimizationTips)| - |Header(t)|] != Header(t)[0]
  {
  }

  /**
   * No header ends with a header tried before it: aligned at their colons,
   * their first characters differ.
   */
  lemma EarlierHeaderNotSuffix(s: Section, t: Section)
    requires Rank(t) < Rank(s)
    ensures |Header(t)| <= |Header(s)| ==> Header(s)[|Header(s)| - |Header(t)|] != Header(t)[0]
  {
    match s
    case ImprovementSuggestions => NotSuffixOfSixth(t);
    case AtsOptimizationTips => NotSuffixOfLast(t);
    case _ => NotSuffixOfFirstFive(s, t);
  }

  /**
   * A header text followed by colon-free upper-case text is its own
   * upper-case form, starts with the header and has its only colon at the
   * end of the header.
   */
  lemma HeaderTextLine(h: string, rest: string)
    requires IsHeaderText(h) && ':' !in rest && Upper(rest) == rest
    ensures Upper(h + rest) == h + rest && Contains(h + rest, h)
    ensures HeadedBy(h + rest, h)
  {
    HeaderTextFacts(h);
    UpperConcat(h, rest);
    var line := h + rest;
    assert line[..|h|] == h;
    forall i | 0 <= i < |line| && line[i] == ':' ensures i == |h| - 1 {
    }
  }

  /** `line` starts with `h` and has its only colon at the end of `h`. */
  predicate HeadedBy(line: string, h: string) {
    && 1 <= |h| <= |line| && line[..|h|] == h
    && forall i :: 0 <= i < |line| && line[i] == ':' ==> i == |h| - 1
  }

  /**
   * In a line that starts with `h` and has its only colon at the end of
   * `h`, a pattern ending in a colon occurs only as a suffix of `h`.
   */
  lemma ColonAlignedOccurrence(line: string, h: string, pat: string)
    requires HeadedBy(line, h)
    requires pat != [] && pat[|pat| - 1] == ':' && Contains(line, pat)
    ensures |pat| <= |h| && h[|h| - |pat|] == pat[0]
  {
    ColonAnchored(line, pat, |h| - 1);
    assert line[|h| - |pat|] == line[..|h|][|h| - |pat|];
  }

  /** So a pattern ending in a colon that is not aligned that way does not occur in such a line. */
  lemma ColonAlignedAbsent(line: string, h: string, pat: string)
    requires HeadedBy(line, h)
    requires pat != [] && pat[|pat| - 1] == ':'
    requires |pat| <= |h| ==> h[|h| - |pat|] != pat[0]
    ensures !Contains(line, pat)
  {
    if Contains(line, pat) {
      ColonAlignedOccurrence(line, h, pat);
    }
  }

  /**
   * A line that starts with a header and has its only colon at that
   * header's end holds no header tried before it.
   */
  lemma EarlierHeaderAbsent(s: Section, t: Section, line: string)
    requires Rank(t) < Rank(s) && HeadedBy(line, Header(s))
    ensures !Contains(line, Header(t))
  {
    HeaderShape(t);
    EarlierHeaderNotSuffix(s, t);
    ColonAlignedAbsent(line, Header(s), Header(t));
  }

  /** A header followed by colon-free upper-case text matches exactly that header. */
  lemma HeaderLineMatch(s: Section, rest: string)
    requires ':' !in rest && Upper(rest) == rest
    ensures MatchHeader(Upper(Header(s) + rest)) == Some(s)
  {
    var h := Header(s);
    var line := h + rest;
    HeaderShape(s);
    HeaderTextLine(h, rest);
    assert line[..|h|] == h;
    forall t | Rank(t) < Rank(s) ensures !Contains(line, Header(t)) {
      EarlierHeaderAbsent(s, t, line);
    }
    MatchHeaderSpec(line, Some(s));
  }

  /** A header on a line of its own is a header line for its section. */
  lemma HeaderLineParses(s: Section)
    ensures Strip(Header(s)) != "" && Strip(Header(s)) == Header(s)
    ensures MatchHeader(Upper(Strip(Header(s)))) == Some(s)
  {
    HeaderShape(s);
    HeaderTextStripped(Header(s));
    assert Header(s) + "" == Header(s);
    HeaderLineMatch(s, "");
  }

  /** A canonical number holds no colon, no letter and no whitespace. */
  lemma NatTextShape(n: string)
    requires IsNatText(n)
    ensures ':' !in n && '\n' !in n && Upper(n) == n
    ensures !IsSpace(n[0]) && !IsSpace(n[|n| - 1])
  {
    assert IsDigit(n[0]) && IsDigit(n[|n| - 1]);
    assert forall i :: 0 <= i < |n| ==> IsDigit(n[i]);
    UpperFixed(n);
  }

  /** A space and a canonical number: colon-free upper-case text. */
  lemma PaddedNumber(n: string)
    requires IsNatText(n)
    ensures ':' !in " " + n && '\n' !in " " + n && Upper(" " + n) == " " + n
  {
    NatTextShape(n);
    UpperFixed(" ");
    UpperConcat(" ", n);
  }

  /** The line of a header text, a space and a canonical number neither starts nor ends with whitespace ... */
  lemma ScoreTextLineEnds(h: string, n: string)
    requires IsHeaderText(h) && IsNatText(n)
    ensures !IsSpace((h + " " + n)[0]) && !IsSpace((h + " " + n)[|h + " " + n| - 1])
  {
    HeaderTextEnds(h);
    NatTextShape(n);
    assert (h + " " + n)[0] == h[0];
    assert (h + " " + n)[|h + " " + n| - 1] == n[|n| - 1];
  }

  /** ... so it is its own stripped form ... */
  lemma ScoreTextLineStripped(h: string, n: string)
    requires IsHeaderText(h) && IsNatText(n)
    ensures Strip(h + " " + n) == h + " " + n
  {
    var line := h + " " + n;
    ScoreTextLineEnds(h, n);
    assert "" + line + "" == line;
    StripPadded("", line, "");
  }

  /** A canonical number after a space is read back as itself. */
  lemma ParseScoreOfPadded(n: string)
    requires IsNatText(n)
    ensures ParseScore(Strip(" " + n)) == n
  {
    NatTextShape(n);
    assert " " + n + "" == " " + n;
    StripPadded(" ", n, "");
    NatTextUnique(n);
    ParseScoreOfNatText(DigitsValue(n));
  }

  /** ... and its score text is the number. */
  lemma ScoreTextLineValue(h: string, n: string)
    requires IsHeaderText(h) && IsNatText(n)
    ensures ':' in h + " " + n && ScoreOf(h + " " + n) == n
  {
    var line := h + " " + n;
    HeaderTextFacts(h);
    PaddedNumber(n);
    var a := h[..|h| - 1];
    assert h == a + ":";
    assert line == a + ":" + (" " + n) + "";
    ScoreOfSecondSegment(line, a, " " + n, "");
    ParseScoreOfPadded(n);
  }

  /** The line of a numeric header with a canonical value is a header line for that header ... */
  lemma ScoreLineMatches(s: Section, n: string)
    requires IsNatText(n)
    ensures Strip(ScoreLine(s, n)) == ScoreLine(s, n) != ""
    ensures MatchHeader(Upper(Strip(ScoreLine(s, n)))) == Some(s)
  {
    HeaderShape(s);
    ScoreTextLineStripped(Header(s), n);
    PaddedNumber(n);
    assert ScoreLine(s, n) == Header(s) + (" " + n);
    HeaderLineMatch(s, " " + n);
  }

  /** ... that stores the value and holds no line break. */
  lemma ScoreLineValue(s: Section, n: string)
    requires IsNatText(n)
    ensures ':' in ScoreLine(s, n) && ScoreOf(ScoreLine(s, n)) == n
    ensures '\n' !in ScoreLine(s, n)
  {
    HeaderShape(s);
    HeaderTextFacts(Header(s));
    ScoreTextLineValue(Header(s), n);
    PaddedNumber(n);
  }

  // ---------------------------------------------------------------------
  // Content lines

  /** Text that a header can occur in after a `"- "` prefix already holds it. */
  lemma DashPrefix(u: string, h: string)
    requires h != [] && 'A' <= h[0] <= 'Z'
    ensures Contains("- " + u, h) ==> Contains(u, h)
  {
    if Contains("- " + u, h) {
      assert !StartsWith("- " + u, h) by {
        assert ("- " + u)[0] == '-';
      }
      assert ("- " + u)[1..] == " " + u;
      assert Contains(" " + u, h);
      assert !StartsWith(" " + u, h) by {
        assert (" " + u)[0] == ' ';
      }
      assert (" " + u)[1..] == u;
    }
  }

  /** A `"- "` prefix adds no header to header-free text. */
  lemma DashedHeaderFree(t: string)
    requires HeaderFree(t)
    ensures HeaderFree("- " + t)
  {
    UpperFixed("- ");
    UpperConcat("- ", t);
    forall s ensures !Contains(Upper("- " + t), Header(s)) {
      HeaderShape(s);
      DashPrefix(Upper(t), Header(s));
    }
  }

  /** A `"- "` line of text ending in a non-space is already stripped. */
  lemma DashedStripped(t: string)
    requires t != "" && !IsSpace(t[|t| - 1])
    ensures Strip("- " + t) == "- " + t
  {
    var line := "- " + t;
    assert line[|line| - 1] == t[|t| - 1];
    assert "" + line + "" == line;
    StripPadded("", line, "");
  }

  /** A `"- "` line has its text after the dash and the space, and no line break of its own. */
  lemma DashedText(t: string)
    ensures Bullet("- " + t) == t
    ensures '\n' in "- " + t ==> '\n' in t
  {
    var line := "- " + t;
    assert StartsWith(line, "- ") && line[2..] == t;
    if '\n' in line {
      var i :| 0 <= i < |line| && line[i] == '\n';
      assert line[i] == t[i - 2];
    }
  }

  /** An item's `"- "` line is a tidy content line whose bullet is the item. */
  lemma DashedLine(t: string)
    requires IsItem(t)
    ensures Strip("- " + t) == "- " + t
    ensures HeaderFree("- " + t)
    ensures Bullet("- " + t) == t
    ensures '\n' !in "- " + t
  {
    DashedStripped(t);
    DashedText(t);
    DashedHeaderFree(t);
  }

  /** The `"- "` lines of items carry no header and no line break ... */
  lemma DashedLines(items: seq<string>)
    requires AllItems(items)
    ensures NoHeaderLines(Dashed(items))
    ensures forall p :: p in Dashed(items) ==> '\n' !in p
  {
    var lines := Dashed(items);
    forall i | 0 <= i < |items| ensures HeaderFree(Strip(lines[i])) && '\n' !in lines[i] {
      DashedLine(items[i]);
    }
  }

  /** ... and, read back as content, give the items again, in order. */
  lemma DashedContent(items: seq<string>)
    requires forall i :: 0 <= i < |items| ==> EndsTidy(items[i])
    ensures Bullets(ContentLines(Dashed(items))) == items
  {
    var lines := Dashed(items);
    forall i | 0 <= i < |lines| ensures Unpadded(lines[i]) {
      assert lines[i] == "- " + items[i];
    }
    ContentLinesUnpadded(lines);
    forall i | 0 <= i < |lines| ensures Bullet(lines[i]) == items[i] {
      DashedText(items[i]);
    }
  }


  /** A summary line is its own stripped form. */
  lemma SummaryLineStripped(t: string)
    requires IsSummaryLine(t)
    ensures Strip(t) == t
  {
    assert "" + t + "" == t;
    StripPadded("", t, "");
  }

  /** The single line of a summary holds no header and no line break ... */
  lemma SummaryLineFree(t: string)
    requires IsSummaryLine(t)
    ensures NoHeaderLines([t])
    ensures forall p :: p in [t] ==> '\n' !in p
  {
    SummaryLineStripped(t);
  }

  /** ... and the parser joins it back into the summary text. */
  lemma SummaryLineJoined(t: string)
    requires Strip(t) == t && t != ""
    ensures Joined(ContentLines([t])) == t + " "
  {
    assert [t][..0] == [];
    assert ContentLines([t]) == [t];
    assert Joined([t]) == "" + t + " ";
  }

  /** The summary block's content line is tidy, so the summary comes back with its one space. */
  lemma SummaryContent(summary: string)
    requires IsSummary(summary)
    ensures NoHeaderLines(SummaryBlock(summary)[1..])
    ensures Joined(ContentLines(SummaryBlock(summary)[1..])) == summary
    ensures forall p :: p in SummaryBlock(summary)[1..] ==> '\n' !in p
  {
    if summary != "" {
      var t := summary[..|summary| - 1];
      assert SummaryBlock(summary)[1..] == [t];
      SummaryLineFree(t);
      SummaryLineJoined(t);
      assert t + " " == summary;
    }
  }

  // ---------------------------------------------------------------------
  // Blocks

  /** A score line stores its value under its header and moves the cursor there. */
  lemma ScoreLineStep(st: State, s: Section, n: string, raw: string)
    requires IsNatText(n) && raw == ScoreLine(s, n)
    ensures Step(st, raw) == State(
      if s == AtsScore then st.sections.(atsScore := n)
      else if s == GlobalPercentile then st.sections.(globalPercentile := n)
      else st.sections,
      Some(s))
  {
    ScoreLineMatches(s, n);
    ScoreLineValue(s, n);
    StepHeader(st, ScoreLine(s, n), s);
  }

  /** A header line of a section without a score moves the cursor there and stores nothing. */
  lemma HeaderLineStep(st: State, s: Section)
    requires !IsScoreSection(s)
    ensures Step(st, Header(s)) == State(st.sections, Some(s))
  {
    HeaderLineParses(s);
    StepHeader(st, Header(s), s);
  }

  /** Under a list header, the `"- "` lines of items append the items to that list. */
  lemma ListContentRun(st: State, s: Section, items: seq<string>)
    requires IsListSection(s) && st.current == Some(s) && AllItems(items)
    ensures Run(st, Dashed(items)) == State(Fill(st.sections, s, st.sections.Items(s) + items), Some(s))
  {
    DashedLines(items);
    DashedContent(items);
    ListBlockCollects(st, s, Dashed(items));
    SameRecord(Run(st, Dashed(items)).sections, Fill(st.sections, s, st.sections.Items(s) + items));
  }

  /** A list header and its `"- "` lines append the items to that list and leave the cursor there. */
  lemma ListBlockRun(st: State, s: Section, items: seq<string>)
    requires IsListSection(s) && AllItems(items)
    ensures Run(st, ListBlock(s, items)) == State(Fill(st.sections, s, st.sections.Items(s) + items), Some(s))
  {
    HeaderLineStep(st, s);
    RunCons(st, Header(s), Dashed(items));
    ListContentRun(State(st.sections, Some(s)), s, items);
  }

  /** The summary header and its line append the summary and leave the cursor there. */
  lemma SummaryBlockRun(st: State, summary: string)
    requires IsSummary(summary)
    ensures Run(st, SummaryBlock(summary)) ==
      State(st.sections.(profileSummary := st.sections.profileSummary + summary), Some(ProfileSummary))
  {
    var block := SummaryBlock(summary);
    HeaderLineParses(ProfileSummary);
    StepHeader(st, Header(ProfileSummary), ProfileSummary);
    assert block == [Header(ProfileSummary)] + block[1..];
    RunCons(st, Header(ProfileSummary), block[1..]);
    SummaryContent(summary);
    SummaryBlockCollects(State(st.sections, Some(ProfileSummary)), block[1..]);
  }

  // ---------------------------------------------------------------------
  // The whole reply, block by block

  /**
   * Block `k` of the rendering of `r`: the score lines, then one block per
   * remaining header. The prompt states the headers in the order the parser
   * tries them, so the blocks follow `HeaderOrder`.
   */
  function Block(r: Record, k: nat): seq<string>
    requires k < 7
  {
    if k == 0 then [ScoreLine(AtsScore, r.atsScore), ScoreLine(GlobalPercentile, r.globalPercentile)]
    else if k == 4 then SummaryBlock(r.profileSummary)
    else ListBlock(HeaderOrder[k + 1], r.Items(HeaderOrder[k + 1]))
  }

  /** The first `k` blocks of the rendering of `r`. */
  function Prefix(r: Record, k: nat): seq<string>
    requires k <= 7
  {
    if k == 0 then [] else Prefix(r, k - 1) + Block(r, k - 1)
  }

  /** The record stated by the first `k` blocks of the rendering of `r`; all seven state `r`. */
  function Upto(r: Record, k: nat): Record {
    Record(
      if k >= 1 then r.atsScore else "0",
      if k >= 1 then r.globalPercentile else "0",
      if k >= 2 then r.keySkills else [],
      if k >= 3 then r.missingSkills else [],
      if k >= 4 then r.experienceAnalysis else [],
      if k >= 5 then r.profileSummary else "",
      if k >= 6 then r.improvementSuggestions else [],
      if k >= 7 then r.atsOptimizationTips else [])
  }

  /** The cursor after the first `k` blocks: the last header they hold. */
  function Cursor(k: nat): Option<Section>
    requires k <= 7
  {
    if k == 0 then None else Some(HeaderOrder[k])
  }

  /** The rendering is its seven blocks, in order. */
  lemma RenderBlocks(r: Record)
    ensures Render(r) == Prefix(r, 7)
  {
    assert Prefix(r, 1) == Block(r, 0);
    assert Prefix(r, 2) == Prefix(r, 1) + Block(r, 1);
    assert Prefix(r, 3) == Prefix(r, 2) + Block(r, 2);
    assert Prefix(r, 4) == Prefix(r, 3) + Block(r, 3);
    assert Prefix(r, 5) == Prefix(r, 4) + Block(r, 4);
    assert Prefix(r, 6) == Prefix(r, 5) + Block(r, 5);
    assert Prefix(r, 7) == Prefix(r, 6) + Block(r, 6);
  }

  /** Storing both scores in the empty record gives the record of the score block. */
  lemma UptoScores(r: Record)
    ensures Upto(r, 0).(atsScore := r.atsScore).(globalPercentile := r.globalPercentile) == Upto(r, 1)
    ensures Cursor(1) == Some(GlobalPercentile)
  {
  }

  /** The score block stores both scores. */
  lemma StageScores(r: Record)
    requires IsNatText(r.atsScore) && IsNatText(r.globalPercentile)
    ensures Run(State(Upto(r, 0), Cursor(0)), Block(r, 0)) == State(Upto(r, 1), Cursor(1))
  {
    var st := State(Upto(r, 0), Cursor(0));
    var b := Block(r, 0);
    RunTwo(st, b);
    ScoreLineStep(st, AtsScore, r.atsScore, b[0]);
    ScoreLineStep(State(st.sections.(atsScore := r.atsScore), Some(AtsScore)), GlobalPercentile, r.globalPercentile, b[1]);
    UptoScores(r);
  }

  /** The summary block stores the summary. */
  lemma StageSummary(r: Record)
    requires IsSummary(r.profileSummary)
    ensures Run(State(Upto(r, 4), Cursor(4)), Block(r, 4)) == State(Upto(r, 5), Cursor(5))
  {
    SummaryBlockRun(State(Upto(r, 4), Cursor(4)), r.profileSummary);
    assert "" + r.profileSummary == r.profileSummary;
  }

  /** Filling the list of block `k` turns the record of the first `k` blocks into that of the first `k + 1`. */
  lemma FillUpto(r: Record, k: nat)
    requires k in {1, 2, 3, 5, 6}
    ensures IsListSection(HeaderOrder[k + 1]) && Upto(r, k).Items(HeaderOrder[k + 1]) == []
    ensures Fill(Upto(r, k), HeaderOrder[k + 1], r.Items(HeaderOrder[k + 1])) == Upto(r, k + 1)
  {
  }

  /** Appending to an empty list fills it. */
  lemma FillEmpty(r0: Record, s: Section, items: seq<string>)
    requires IsListSection(s) && r0.Items(s) == []
    ensures Fill(r0, s, r0.Items(s) + items) == Fill(r0, s, items)
  {
    assert r0.Items(s) + items == items;
  }

  /** A list block stores its items. */
  lemma StageList(r: Record, k: nat)
    requires k in {1, 2, 3, 5, 6}
    requires AllItems(r.Items(HeaderOrder[k + 1]))
    ensures Run(State(Upto(r, k), Cursor(k)), Block(r, k)) == State(Upto(r, k + 1), Cursor(k + 1))
  {
    var s := HeaderOrder[k + 1];
    FillUpto(r, k);
    ListBlockRun(State(Upto(r, k), Cursor(k)), s, r.Items(s));
    FillEmpty(Upto(r, k), s, r.Items(s));
  }

  /** Each block moves the record of the blocks before it to the record of the blocks up to it. */
  lemma Stage(r: Record, k: nat)
    requires Renderable(r) && k < 7
    ensures Run(State(Upto(r, k), Cursor(k)), Block(r, k)) == State(Upto(r, k + 1), Cursor(k + 1))
  {
    if k == 0 {
      StageScores(r);
    } else if k == 4 {
      StageSummary(r);
    } else {
      assert IsListSection(HeaderOrder[k + 1]);
      StageList(r, k);
    }
  }

  /** The loop over the first `k` blocks of the rendering of `r` states the record of those blocks. */
  lemma {:induction false} RunPrefix(r: Record, k: nat)
    requires Renderable(r) && k <= 7
    ensures Run(Start, Prefix(r, k)) == State(Upto(r, k), Cursor(k))
  {
    if k == 0 {
      assert Upto(r, 0) == Default;
    } else {
      RunPrefix(r, k - 1);
      Stage(r, k - 1);
      RunAppend(Start, Prefix(r, k - 1), Block(r, k - 1));
    }
  }

  /** The loop over the rendering of `r` ends with the record `r`, the cursor on the last header. */
  lemma RunRender(r: Record)
    requires Renderable(r)
    ensures Run(Start, Render(r)) == State(r, Some(AtsOptimizationTips))
  {
    RenderBlocks(r);
    RunPrefix(r, 7);
    assert Upto(r, 7) == r;
  }

  /** No line of a block holds a line break. */
  lemma BlockOneLine(r: Record, k: nat)
    requires Renderable(r) && k < 7
    ensures forall p :: p in Block(r, k) ==> '\n' !in p
  {
    if k == 0 {
      ScoreLineValue(AtsScore, r.atsScore);
      ScoreLineValue(GlobalPercentile, r.globalPercentile);
    } else if k == 4 {
      HeaderShape(ProfileSummary);
      HeaderTextFacts(Header(ProfileSummary));
      SummaryContent(r.profileSummary);
      assert Block(r, 4) == [Header(ProfileSummary)] + SummaryBlock(r.profileSummary)[1..];
    } else {
      var s := HeaderOrder[k + 1];
      assert IsListSection(s);
      HeaderShape(s);
      HeaderTextFacts(Header(s));
      DashedLines(r.Items(s));
    }
  }

  /** No line of the first `k` blocks holds a line break. */
  lemma {:induction false} PrefixOneLine(r: Record, k: nat)
    requires Renderable(r) && k <= 7
    ensures forall p :: p in Prefix(r, k) ==> '\n' !in p
  {
    if k > 0 {
      PrefixOneLine(r, k - 1);
      BlockOneLine(r, k - 1);
    }
  }

  /**
   * The round trip: a reply that states a record in the format of the
   * prompt parses back to exactly that record.
   */
  lemma ParseRender(r: Record)
    requires Renderable(r)
    ensures Parse(Some(RenderText(r))) == r
  {
    var lines := Render(r);
    RenderBlocks(r);
    PrefixOneLine(r, 7);
    SplitJoin(lines, '\n');
    RunRender(r);
    assert RenderText(r) != "" by {
      assert lines[0] == ScoreLine(AtsScore, r.atsScore);
      assert |Join(lines, '\n')| >= |lines[0]|;
    }
  }
}
