/**
 * What `parse_gemini_response` (app.py:112-201) guarantees about the record
 * it returns.
 *
 * The record-level facts are proved over classified lines (`Replay` folds
 * `Apply` over a sequence of `Line`s) against independent descriptions: the
 * content texts of a block, the items a list section collects, the summary
 * text, the last score line. `RunReplay` carries them over to the loop on
 * raw lines, and `ClassifyCases` says what the classification of a raw line is.
 */
module ParserProperties {
  import opened Wrappers
  import opened Text
  import opened Score
  import opened ReplyParser

  /** `t` contains no header text, whatever its letter case. */
  predicate HeaderFree(t: string) {
    forall s :: !Contains(Upper(t), Header(s))
  }

  /** No line of `lines` is a header line once stripped. */
  predicate NoHeaderLines(lines: seq<string>) {
    forall i :: 0 <= i < |lines| ==> HeaderFree(Strip(lines[i]))
  }

  /** The stripped non-blank lines of `lines`, in order. */
  function ContentLines(lines: seq<string>): seq<string>
    decreases |lines|
  {
    if lines == [] then []
    else
      var line := Strip(lines[|lines| - 1]);
      ContentLines(lines[..|lines| - 1]) + (if line == "" then [] else [line])
  }

  /** The item a list line contributes: the line without a leading `"- "`. */
  function Bullet(line: string): string {
    if StartsWith(line, "- ") then line[2..] else line
  }

  /** The items of `lines`, in order. */
  function Bullets(lines: seq<string>): seq<string> {
    seq(|lines|, i requires 0 <= i < |lines| => Bullet(lines[i]))
  }

  /** Lines none of which is padded are their own content. */
  lemma {:induction false} ContentLinesUnpadded(lines: seq<string>)
    requires forall i :: 0 <= i < |lines| ==> Unpadded(lines[i])
    ensures ContentLines(lines) == lines
    decreases |lines|
  {
    if lines != [] {
      var init, last := lines[..|lines| - 1], lines[|lines| - 1];
      ContentLinesUnpadded(init);
      StripUnpadded(last);
      assert init + [last] == lines;
    }
  }

  /** The summary text of `lines`: each line followed by one space. */
  function Joined(lines: seq<string>): string
    decreases |lines|
  {
    if lines == [] then "" else Joined(lines[..|lines| - 1]) + lines[|lines| - 1] + " "
  }

  /** The total length of `lines`, counting one more for each line. */
  function TotalLength(lines: seq<string>): nat
    decreases |lines|
  {
    if lines == [] then 0 else TotalLength(lines[1..]) + |lines[0]| + 1
  }

  /** Every item of a list is non-empty and free of header text. */
  predicate ItemsOk(items: seq<string>) {
    forall i :: 0 <= i < |items| ==> items[i] != "" && HeaderFree(items[i])
  }

  /**
   * The invariant of the record: both scores are texts of natural numbers
   * (so `int(...)` at app.py:324 succeeds) and every list item is non-empty
   * and contains no header.
   */
  predicate WellFormed(r: Record) {
    && IsNatText(r.atsScore) && IsNatText(r.globalPercentile)
    && forall s :: IsListSection(s) ==> ItemsOk(r.Items(s))
  }

  /** Lists and summary of `r2` extend those of `r1`: nothing collected is ever removed. */
  predicate Grows(r1: Record, r2: Record) {
    && r1.profileSummary <= r2.profileSummary
    && forall s :: IsListSection(s) ==> r1.Items(s) <= r2.Items(s)
  }

  // ---------------------------------------------------------------------
  // Classified lines

  /** A content line is stripped, non-blank and free of header text. */
  predicate Tidy(k: Line) {
    k.ContentLine? ==> k.text != "" && !IsSpace(k.text[|k.text| - 1]) && HeaderFree(k.text)
  }

  /** The classification of each line. */
  function Kinds(lines: seq<string>): (ks: seq<Line>)
    ensures |ks| == |lines|
    decreases |lines|
  {
    if lines == [] then [] else Kinds(lines[..|lines| - 1]) + [Classify(lines[|lines| - 1])]
  }

  /** The loop over classified lines. */
  function Replay(st: State, ks: seq<Line>): State
    decreases |ks|
  {
    if ks == [] then st else Apply(Replay(st, ks[..|ks| - 1]), ks[|ks| - 1])
  }

  /** No line of `ks` is a header line. */
  predicate NoHeaders(ks: seq<Line>) {
    forall i :: 0 <= i < |ks| ==> !ks[i].HeaderLine?
  }

  /** The texts of the content lines of `ks`, in order. */
  function Texts(ks: seq<Line>): seq<string>
    decreases |ks|
  {
    if ks == [] then []
    else
      var k := ks[|ks| - 1];
      Texts(ks[..|ks| - 1]) + (if k.ContentLine? then [k.text] else [])
  }

  /** The value stored by the last header line for `s` in `ks`, or `init` when there is none. */
  function LastScore(ks: seq<Line>, s: Section, init: string): string
    decreases |ks|
  {
    if ks == [] then init
    else
      match ks[|ks| - 1]
      case HeaderLine(t, line) => if t == s then ScoreOf(line) else LastScore(ks[..|ks| - 1], s, init)
      case _ => LastScore(ks[..|ks| - 1], s, init)
  }

  /**
   * What `Classify` makes of a raw line: blank exactly when it strips to
   * nothing, a header line exactly when its stripped text contains a header
   * (then for the first header in the parser's order), and content otherwise,
   * carrying the stripped text.
   */
  lemma ClassifyCases(raw: string)
    ensures Classify(raw) == Blank <==> Strip(raw) == ""
    ensures Classify(raw).HeaderLine? <==> Strip(raw) != "" && !HeaderFree(Strip(raw))
    ensures Classify(raw).HeaderLine? ==>
      Classify(raw).header == Strip(raw) && Some(Classify(raw).section) == MatchHeader(Upper(Strip(raw)))
    ensures Classify(raw).ContentLine? ==> Classify(raw).text == Strip(raw)
  {
    MatchHeaderNone(Upper(Strip(raw)));
  }

  /** Content lines are tidy: stripped, non-blank and free of header text. */
  lemma ClassifyTidy(raw: string)
    ensures Tidy(Classify(raw))
  {
    if Classify(raw).ContentLine? {
      MatchHeaderNone(Upper(Strip(raw)));
    }
  }

  /** The loop on `[raw] + lines` is one step on `raw`, then the loop on `lines`. */
  lemma {:induction false} RunCons(st: State, raw: string, lines: seq<string>)
    ensures Run(st, [raw] + lines) == Run(Step(st, raw), lines)
    decreases |lines|
  {
    if lines == [] {
      assert [raw] + lines == [raw];
      assert [raw][..0] == [];
    } else {
      var init := lines[..|lines| - 1];
      assert ([raw] + lines)[..|lines|] == [raw] + init;
      RunCons(st, raw, init);
    }
  }

  /** The loop on raw lines is the loop on their classifications. */
  lemma {:induction false} RunReplay(st: State, lines: seq<string>)
    ensures Run(st, lines) == Replay(st, Kinds(lines))
    decreases |lines|
  {
    if lines != [] {
      var init := lines[..|lines| - 1];
      RunReplay(st, init);
    }
  }

  /** Replaying `a + b` is replaying `a`, then `b`. */
  lemma {:induction false} ReplayAppend(st: State, a: seq<Line>, b: seq<Line>)
    ensures Replay(st, a + b) == Replay(Replay(st, a), b)
    decreases |b|
  {
    if b == [] {
      assert a + b == a;
    } else {
      var init := b[..|b| - 1];
      assert (a + b)[..|a + b| - 1] == a + init;
      assert (a + b)[|a + b| - 1] == b[|b| - 1];
      ReplayAppend(st, a, init);
    }
  }

  // ---------------------------------------------------------------------
  // Header matching and the guard

  /** A line holding some header's text matches a header. */
  lemma HeaderTextMatches(upper: string, s: Section)
    requires Contains(upper, Header(s))
    ensures MatchHeader(upper).Some?
  {
    MatchHeaderNone(upper);
  }

  /** A list header literal, read as a line, is its own upper-case form and matches a header. */
  lemma HeaderLineMatches(s: Section)
    requires IsListSection(s)
    ensures MatchHeader(Upper(Header(s))).Some?
  {
    var h := Header(s);
    assert Upper(h) == h by {
      match s
      case KeySkills => UpperFixed("KEY SKILLS FOUND:");
      case MissingSkills => UpperFixed("MISSING SKILLS:");
      case ExperienceAnalysis => UpperFixed("EXPERIENCE ANALYSIS:");
      case ImprovementSuggestions => UpperFixed("IMPROVEMENT SUGGESTIONS:");
      case AtsOptimizationTips => UpperFixed("ATS OPTIMIZATION TIPS:");
    }
    assert Contains(h, h) by {
      assert StartsWith(h, h);
    }
    HeaderTextMatches(h, s);
  }

  /**
   * The guard at app.py:197-198 never fires: a line equal to one of its
   * literals has already matched a header, so it never reaches the guard.
   */
  lemma GuardNeverFires(line: string)
    ensures MatchHeader(Upper(line)).None? ==> line !in ListHeaderLines
  {
    if line in ListHeaderLines {
      var lists := [KeySkills, MissingSkills, ExperienceAnalysis, ImprovementSuggestions, AtsOptimizationTips];
      assert forall i :: 0 <= i < 5 ==> ListHeaderLines[i] == Header(lists[i]);
      var i :| 0 <= i < 5 && ListHeaderLines[i] == line;
      HeaderLineMatches(lists[i]);
    }
  }


  /** In a list section, a content line always adds its item: the guard never rejects it. */
  lemma StoreListLine(r: Record, s: Section, line: string)
    requires IsListSection(s) && HeaderFree(line)
    ensures Store(r, Some(s), line) == r.WithItem(s, Bullet(line))
  {
    MatchHeaderNone(Upper(line));
    GuardNeverFires(line);
  }

  // ---------------------------------------------------------------------
  // Single lines

  /**
   * A header line moves the cursor to the first header it contains, in the
   * order the parser tests them, and is not stored as content: lists and
   * summary are unchanged and only the header's own score may change.
   */
  lemma HeaderLineSwitches(st: State, raw: string)
    requires Strip(raw) != "" && !HeaderFree(Strip(raw))
    ensures Step(st, raw).current == MatchHeader(Upper(Strip(raw)))
    ensures Step(st, raw).current.Some?
    ensures Step(st, raw).sections.profileSummary == st.sections.profileSummary
    ensures forall t :: IsListSection(t) ==> Step(st, raw).sections.Items(t) == st.sections.Items(t)
    ensures Step(st, raw).current != Some(AtsScore) ==> Step(st, raw).sections.atsScore == st.sections.atsScore
    ensures Step(st, raw).current != Some(GlobalPercentile) ==>
      Step(st, raw).sections.globalPercentile == st.sections.globalPercentile
  {
    var k := Classify(raw);
    ClassifyCases(raw);
    ApplyHeader(st, k);
  }

  /** Applying a header line: the cursor moves to its section and only that section's score may change. */
  lemma ApplyHeader(st: State, k: Line)
    requires k.HeaderLine?
    ensures Apply(st, k).current == Some(k.section)
    ensures Apply(st, k).sections.profileSummary == st.sections.profileSummary
    ensures forall t :: IsListSection(t) ==> Apply(st, k).sections.Items(t) == st.sections.Items(t)
    ensures k.section != AtsScore ==> Apply(st, k).sections.atsScore == st.sections.atsScore
    ensures k.section != GlobalPercentile ==> Apply(st, k).sections.globalPercentile == st.sections.globalPercentile
  {
  }

  /** A numeric header whose value is no float literal stores "0", overwriting any earlier value. */
  lemma UnparseableScoreWritesZero(st: State, raw: string, s: Section)
    requires IsScoreSection(s) && Strip(raw) != "" && MatchHeader(Upper(Strip(raw))) == Some(s)
    ensures ':' in Strip(raw)
    ensures ParseFloat(KeepNumeric(ScoreText(Strip(raw)))).None? ==>
      (if s == AtsScore then Step(st, raw).sections.atsScore else Step(st, raw).sections.globalPercentile) == "0"
  {
    StepHeader(st, raw, s);
  }

  /**
   * The score value is the text between the first and the second colon of
   * the line (or its end), stripped, filtered and rounded.
   */
  lemma ScoreOfSecondSegment(line: string, a: string, b: string, rest: string)
    requires ':' !in a && ':' !in b && (rest == [] || rest[0] == ':')
    requires line == a + ":" + b + rest
    ensures ':' in line && ScoreOf(line) == ParseScore(Strip(b))
  {
    assert line[|a|] == ':';
    SplitSecondPiece(a, b, rest, ':');
  }

  // ---------------------------------------------------------------------
  // Scores

  /**
   * Each score field holds the value of the last header line for it, or
   * the value it had before when there is none: a later occurrence of the
   * same header overwrites an earlier one.
   */
  lemma {:induction false} ReplayScores(st: State, ks: seq<Line>)
    ensures Replay(st, ks).sections.atsScore == LastScore(ks, AtsScore, st.sections.atsScore)
    ensures Replay(st, ks).sections.globalPercentile == LastScore(ks, GlobalPercentile, st.sections.globalPercentile)
    decreases |ks|
  {
    if ks != [] {
      ReplayScores(st, ks[..|ks| - 1]);
    }
  }

  /** `ReplayScores` for the loop on raw lines. */
  lemma ScoreIsLastOccurrence(st: State, lines: seq<string>)
    ensures Run(st, lines).sections.atsScore == LastScore(Kinds(lines), AtsScore, st.sections.atsScore)
    ensures Run(st, lines).sections.globalPercentile ==
      LastScore(Kinds(lines), GlobalPercentile, st.sections.globalPercentile)
  {
    RunReplay(st, lines);
    ReplayScores(st, Kinds(lines));
  }

  // ---------------------------------------------------------------------
  // Blocks of content lines

  /** Without a header line, the cursor of the loop over classified lines stays put. */
  lemma {:induction false} ReplayKeepsCursor(st: State, ks: seq<Line>)
    requires NoHeaders(ks)
    ensures Replay(st, ks).current == st.current
    decreases |ks|
  {
    if ks != [] {
      ReplayKeepsCursor(st, ks[..|ks| - 1]);
    }
  }

  /**
   * Before the first header, and under a numeric header, content lines are
   * dropped: a block without header lines leaves the whole state unchanged.
   */
  lemma {:induction false} ReplayDropped(st: State, ks: seq<Line>)
    requires st.current.None? || IsScoreSection(st.current.value)
    requires NoHeaders(ks)
    ensures Replay(st, ks) == st
    decreases |ks|
  {
    if ks != [] {
      ReplayDropped(st, ks[..|ks| - 1]);
    }
  }

  /**
   * In a list section, a block without header lines appends the item of
   * each content line, in input order, to that section's list and to
   * nothing else.
   */
  lemma {:induction false} ReplayList(st: State, s: Section, ks: seq<Line>)
    requires IsListSection(s) && st.current == Some(s)
    requires NoHeaders(ks) && forall i :: 0 <= i < |ks| ==> Tidy(ks[i])
    ensures Replay(st, ks).sections.Items(s) == st.sections.Items(s) + Bullets(Texts(ks))
    ensures forall t :: IsListSection(t) && t != s ==> Replay(st, ks).sections.Items(t) == st.sections.Items(t)
    ensures Replay(st, ks).sections.profileSummary == st.sections.profileSummary
    ensures Replay(st, ks).sections.atsScore == st.sections.atsScore
    ensures Replay(st, ks).sections.globalPercentile == st.sections.globalPercentile
    decreases |ks|
  {
    if ks == [] {
      assert st.sections.Items(s) + [] == st.sections.Items(s);
    } else {
      var init, k := ks[..|ks| - 1], ks[|ks| - 1];
      ReplayList(st, s, init);
      ReplayKeepsCursor(st, init);
      var mid := Replay(st, init);
      if k.ContentLine? {
        assert Tidy(k);
        StoreListLine(mid.sections, s, k.text);
        assert Texts(ks) == Texts(init) + [k.text];
        assert Bullets(Texts(ks)) == Bullets(Texts(init)) + [Bullet(k.text)];
      } else {
        assert Texts(ks) == Texts(init);
      }
    }
  }

  /**
   * In the profile summary, a block without header lines appends each
   * content line followed by a space, in input order, and changes nothing else.
   */
  lemma {:induction false} ReplaySummary(st: State, ks: seq<Line>)
    requires st.current == Some(ProfileSummary) && NoHeaders(ks)
    ensures Replay(st, ks) == State(st.sections.(profileSummary := st.sections.profileSummary + Joined(Texts(ks))), st.current)
    decreases |ks|
  {
    if ks == [] {
      assert st.sections.profileSummary + "" == st.sections.profileSummary;
    } else {
      var init, k := ks[..|ks| - 1], ks[|ks| - 1];
      ReplaySummary(st, init);
      if k.ContentLine? {
        var c := Texts(ks);
        assert c == Texts(init) + [k.text];
        assert c[..|c| - 1] == Texts(init);
      } else {
        assert Texts(ks) == Texts(init);
      }
    }
  }

  /** Every classified line is tidy. */
  lemma {:induction false} KindsTidy(lines: seq<string>)
    ensures forall i :: 0 <= i < |lines| ==> Tidy(Kinds(lines)[i])
    decreases |lines|
  {
    if lines != [] {
      KindsTidy(lines[..|lines| - 1]);
      ClassifyTidy(lines[|lines| - 1]);
    }
  }

  /** Under `NoHeaderLines`, no classified line is a header line. */
  lemma {:induction false} KindsOfContent(lines: seq<string>)
    requires NoHeaderLines(lines)
    ensures NoHeaders(Kinds(lines))
    decreases |lines|
  {
    if lines != [] {
      var init := lines[..|lines| - 1];
      assert forall i :: 0 <= i < |init| ==> init[i] == lines[i];
      KindsOfContent(init);
      ClassifyCases(lines[|lines| - 1]);
    }
  }

  /** The content texts of a block without header lines are its stripped non-blank lines. */
  lemma {:induction false} TextsOfContent(lines: seq<string>)
    requires NoHeaderLines(lines)
    ensures Texts(Kinds(lines)) == ContentLines(lines)
    decreases |lines|
  {
    if lines != [] {
      var init, raw := lines[..|lines| - 1], lines[|lines| - 1];
      assert forall i :: 0 <= i < |init| ==> init[i] == lines[i];
      TextsOfContent(init);
      ClassifyCases(raw);
    }
  }

  /** Content lines before the first header, or under a numeric header, change nothing. */
  lemma ContentDropped(st: State, lines: seq<string>)
    requires st.current.None? || IsScoreSection(st.current.value)
    requires NoHeaderLines(lines)
    ensures Run(st, lines) == st
  {
    KindsOfContent(lines);
    RunReplay(st, lines);
    ReplayDropped(st, Kinds(lines));
  }

  /** A reply with no header line at all parses to the default record. */
  lemma NoHeaderGivesDefault(text: string)
    requires NoHeaderLines(Split(text, '\n'))
    ensures Parse(Some(text)) == Default
  {
    if text != "" {
      ContentDropped(Start, Split(text, '\n'));
    }
  }

  /**
   * In a list section, a block without header lines appends the item of
   * each non-blank line, stripped and without its `"- "` bullet, in input
   * order, to that section's list and to nothing else.
   */
  lemma ListBlockCollects(st: State, s: Section, lines: seq<string>)
    requires IsListSection(s) && st.current == Some(s)
    requires NoHeaderLines(lines)
    ensures Run(st, lines).current == st.current
    ensures Run(st, lines).sections.Items(s) == st.sections.Items(s) + Bullets(ContentLines(lines))
    ensures forall t :: IsListSection(t) && t != s ==> Run(st, lines).sections.Items(t) == st.sections.Items(t)
    ensures Run(st, lines).sections.profileSummary == st.sections.profileSummary
    ensures Run(st, lines).sections.atsScore == st.sections.atsScore
    ensures Run(st, lines).sections.globalPercentile == st.sections.globalPercentile
  {
    KindsOfContent(lines);
    KindsTidy(lines);
    TextsOfContent(lines);
    RunReplay(st, lines);
    ReplayKeepsCursor(st, Kinds(lines));
    ReplayList(st, s, Kinds(lines));
  }

  /**
   * In the profile summary, a block without header lines appends each
   * stripped non-blank line followed by a space, in input order, and
   * changes nothing else.
   */
  lemma SummaryBlockCollects(st: State, lines: seq<string>)
    requires st.current == Some(ProfileSummary)
    requires NoHeaderLines(lines)
    ensures Run(st, lines) == State(
      st.sections.(profileSummary := st.sections.profileSummary + Joined(ContentLines(lines))), st.current)
  {
    KindsOfContent(lines);
    TextsOfContent(lines);
    RunReplay(st, lines);
    ReplaySummary(st, Kinds(lines));
  }

  /** The summary text of some lines is as long as the lines together, plus one per line. */
  lemma {:induction false} JoinedLength(lines: seq<string>)
    ensures |Joined(lines)| == TotalLength(lines)
    decreases |lines|
  {
    if lines != [] {
      var init := lines[..|lines| - 1];
      JoinedLength(init);
      TotalLengthSnoc(init, lines[|lines| - 1]);
      assert init + [lines[|lines| - 1]] == lines;
    }
  }

  /** Adding a line at the end adds its length plus one. */
  lemma {:induction false} TotalLengthSnoc(lines: seq<string>, line: string)
    ensures TotalLength(lines + [line]) == TotalLength(lines) + |line| + 1
    decreases |lines|
  {
    if lines != [] {
      assert (lines + [line])[1..] == lines[1..] + [line];
      TotalLengthSnoc(lines[1..], line);
    }
  }

  /**
   * A header for a list section followed by a block of content lines: the
   * block's items are appended to whatever the list already held, so a
   * repeated header never clears its list.
   */
  lemma SectionBlock(st: State, raw: string, s: Section, lines: seq<string>)
    requires IsListSection(s)
    requires Strip(raw) != "" && MatchHeader(Upper(Strip(raw))) == Some(s)
    requires NoHeaderLines(lines)
    ensures Run(st, [raw] + lines).sections.Items(s) == st.sections.Items(s) + Bullets(ContentLines(lines))
  {
    StepHeader(st, raw, s);
    RunCons(st, raw, lines);
    ListBlockCollects(Step(st, raw), s, lines);
  }

  // ---------------------------------------------------------------------
  // Absent headers

  /** No line of `lines` is a header line for section `s`. */
  predicate NeverHeaded(lines: seq<string>, s: Section) {
    forall i :: 0 <= i < |lines| ==> MatchHeader(Upper(Strip(lines[i]))) != Some(s)
  }

  /** No classified line of `ks` is a header line for section `s`. */
  predicate NoHeaderFor(ks: seq<Line>, s: Section) {
    forall i :: 0 <= i < |ks| ==> !ks[i].HeaderLine? || ks[i].section != s
  }

  /** Appending a line that is no header line for `s` keeps `s` unheaded. */
  lemma NoHeaderForSnoc(ks: seq<Line>, k: Line, s: Section)
    requires NoHeaderFor(ks, s) && (!k.HeaderLine? || k.section != s)
    ensures NoHeaderFor(ks + [k], s)
  {
    assert forall i :: 0 <= i < |ks| ==> (ks + [k])[i] == ks[i];
  }

  /** A line whose first matching header is not that of `s` is not classified as a header line for `s`. */
  lemma ClassifyNotHeading(raw: string, s: Section)
    requires MatchHeader(Upper(Strip(raw))) != Some(s)
    ensures !Classify(raw).HeaderLine? || Classify(raw).section != s
  {
  }

  /** A raw line that never heads `s` is never classified as a header line for `s`. */
  lemma {:induction false} KindsNeverHeaded(lines: seq<string>, s: Section)
    requires NeverHeaded(lines, s)
    ensures NoHeaderFor(Kinds(lines), s)
    decreases |lines|
  {
    if lines != [] {
      var init := lines[..|lines| - 1];
      assert forall i :: 0 <= i < |init| ==> init[i] == lines[i];
      KindsNeverHeaded(init, s);
      ClassifyNotHeading(lines[|lines| - 1], s);
      NoHeaderForSnoc(Kinds(init), Classify(lines[|lines| - 1]), s);
    }
  }

  /**
   * A list or the summary whose header never occurs keeps what it held:
   * the cursor never moves onto it, so no content line reaches it.
   */
  lemma {:induction false} ReplayAbsentContent(st: State, s: Section, ks: seq<Line>)
    requires !IsScoreSection(s) && st.current != Some(s)
    requires NoHeaderFor(ks, s)
    ensures Replay(st, ks).current != Some(s)
    ensures IsListSection(s) ==> Replay(st, ks).sections.Items(s) == st.sections.Items(s)
    ensures s == ProfileSummary ==> Replay(st, ks).sections.profileSummary == st.sections.profileSummary
    decreases |ks|
  {
    if ks != [] {
      ReplayAbsentContent(st, s, ks[..|ks| - 1]);
    }
  }

  /** A score whose header never occurs keeps its value, wherever the cursor is. */
  lemma {:induction false} ReplayAbsentScore(st: State, s: Section, ks: seq<Line>)
    requires IsScoreSection(s) && NoHeaderFor(ks, s)
    ensures s == AtsScore ==> Replay(st, ks).sections.atsScore == st.sections.atsScore
    ensures s == GlobalPercentile ==> Replay(st, ks).sections.globalPercentile == st.sections.globalPercentile
    decreases |ks|
  {
    if ks != [] {
      ReplayAbsentScore(st, s, ks[..|ks| - 1]);
    }
  }

  /** From the start, a field whose header never occurs ends at its default. */
  lemma RunAbsentDefault(lines: seq<string>, s: Section)
    requires NeverHeaded(lines, s)
    ensures IsListSection(s) ==> Run(Start, lines).sections.Items(s) == []
    ensures s == ProfileSummary ==> Run(Start, lines).sections.profileSummary == ""
    ensures s == AtsScore ==> Run(Start, lines).sections.atsScore == "0"
    ensures s == GlobalPercentile ==> Run(Start, lines).sections.globalPercentile == "0"
  {
    KindsNeverHeaded(lines, s);
    RunReplay(Start, lines);
    if IsScoreSection(s) {
      ReplayAbsentScore(Start, s, Kinds(lines));
    } else {
      ReplayAbsentContent(Start, s, Kinds(lines));
    }
  }

  /**
   * A reply in which a header never occurs leaves that field at its
   * default, whatever the headers that do occur fill in.
   */
  lemma AbsentHeaderDefault(text: string, s: Section)
    requires NeverHeaded(Split(text, '\n'), s)
    ensures IsListSection(s) ==> Parse(Some(text)).Items(s) == []
    ensures s == ProfileSummary ==> Parse(Some(text)).profileSummary == ""
    ensures s == AtsScore ==> Parse(Some(text)).atsScore == "0"
    ensures s == GlobalPercentile ==> Parse(Some(text)).globalPercentile == "0"
  {
    if text == "" {
      assert Parse(Some(text)) == Default;
    } else {
      var lines := Split(text, '\n');
      assert Parse(Some(text)) == Run(Start, lines).sections;
      RunAbsentDefault(lines, s);
    }
  }

  // ---------------------------------------------------------------------
  // The record invariant

  /** The record invariant holds for the default record ... */
  lemma DefaultWellFormed()
    ensures WellFormed(Default)
  {
    assert IsNatText("0");
  }

  /** A list line's item is non-empty and free of header text. */
  lemma BulletOk(line: string)
    requires line != "" && !IsSpace(line[|line| - 1]) && HeaderFree(line)
    ensures Bullet(line) != "" && HeaderFree(Bullet(line))
  {
    if StartsWith(line, "- ") {
      assert line[1] == ' ';
      UpperSuffix(line, 2);
      forall s ensures !Contains(Upper(line[2..]), Header(s)) {
        ContainsInSuffix(Upper(line), 2, Header(s));
      }
    }
  }

  /** ... storing a tidy content line keeps it ... */
  lemma StoreWellFormed(r: Record, current: Option<Section>, line: string)
    requires WellFormed(r)
    requires line != "" && !IsSpace(line[|line| - 1]) && HeaderFree(line)
    ensures WellFormed(Store(r, current, line))
  {
    if current.Some? && IsListSection(current.value) {
      var s := current.value;
      BulletOk(line);
      StoreListLine(r, s, line);
      var r' := r.WithItem(s, Bullet(line));
      assert ItemsOk(r'.Items(s)) by {
        assert r'.Items(s) == r.Items(s) + [Bullet(line)];
        assert ItemsOk(r.Items(s));
      }
    }
  }

  /** ... and so does every tidy classified line ... */
  lemma ApplyWellFormed(st: State, k: Line)
    requires WellFormed(st.sections) && Tidy(k)
    ensures WellFormed(Apply(st, k).sections)
  {
    if k.ContentLine? {
      StoreWellFormed(st.sections, st.current, k.text);
    }
  }

  /** ... and every loop over them ... */
  lemma {:induction false} ReplayWellFormed(st: State, ks: seq<Line>)
    requires WellFormed(st.sections)
    requires forall i :: 0 <= i < |ks| ==> Tidy(ks[i])
    ensures WellFormed(Replay(st, ks).sections)
    decreases |ks|
  {
    if ks != [] {
      ReplayWellFormed(st, ks[..|ks| - 1]);
      ApplyWellFormed(Replay(st, ks[..|ks| - 1]), ks[|ks| - 1]);
    }
  }

  /**
   * ... so every parsed record satisfies it: `int()` of either score
   * succeeds, and no list item is empty or contains a header.
   */
  lemma ParseWellFormed(text: Option<string>)
    ensures WellFormed(Parse(text))
  {
    DefaultWellFormed();
    if text.Some? && text.value != "" {
      var lines := Split(text.value, '\n');
      KindsTidy(lines);
      RunReplay(Start, lines);
      ReplayWellFormed(Start, Kinds(lines));
    }
  }

  // ---------------------------------------------------------------------
  // Nothing collected is ever removed

  /** Storing a content line never removes anything collected ... */
  lemma StoreGrows(r: Record, current: Option<Section>, line: string)
    ensures Grows(r, Store(r, current, line))
  {
    if current.Some? && IsListSection(current.value) {
      var s := current.value;
      if StartsWith(line, "- ") {
        assert r.Items(s) <= r.Items(s) + [line[2..]];
      } else {
        assert r.Items(s) <= r.Items(s) + [line];
      }
    }
  }

  /** ... a header line changes at most the scores, so the lists and the summary stay as they were ... */
  lemma RescoreGrows(r: Record, s: Section, line: ColonText)
    ensures Grows(r, Rescore(r, s, line))
  {
    var r2 := Rescore(r, s, line);
    assert r2 == r.(atsScore := r2.atsScore, globalPercentile := r2.globalPercentile);
  }

  /** ... so no classified line removes anything ... */
  lemma ApplyGrows(st: State, k: Line)
    ensures Grows(st.sections, Apply(st, k).sections)
  {
    match k
    case Blank =>
    case HeaderLine(s, line) => RescoreGrows(st.sections, s, line);
    case ContentLine(line) => StoreGrows(st.sections, st.current, line);
  }

  /** ... and no loop over them does ... */
  lemma {:induction false} ReplayGrows(st: State, ks: seq<Line>)
    ensures Grows(st.sections, Replay(st, ks).sections)
    decreases |ks|
  {
    if ks != [] {
      var mid := Replay(st, ks[..|ks| - 1]);
      ReplayGrows(st, ks[..|ks| - 1]);
      ApplyGrows(mid, ks[|ks| - 1]);
      forall s | IsListSection(s) ensures st.sections.Items(s) <= Replay(st, ks).sections.Items(s) {
        assert st.sections.Items(s) <= mid.sections.Items(s);
      }
    }
  }

  /** ... nor the loop on raw lines: a later header never clears a list or the summary. */
  lemma RunGrows(st: State, lines: seq<string>)
    ensures Grows(st.sections, Run(st, lines).sections)
  {
    RunReplay(st, lines);
    ReplayGrows(st, Kinds(lines));
  }

  /** An absent reply and an empty reply both give the default record. */
  lemma ParseDefaults()
    ensures Parse(None) == Default && Parse(Some("")) == Default
    ensures Default.atsScore == "0" && Default.globalPercentile == "0" && Default.profileSummary == ""
    ensures forall s :: IsListSection(s) ==> Default.Items(s) == []
  {
  }
}
