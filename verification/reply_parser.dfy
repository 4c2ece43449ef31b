/**
 * `parse_gemini_response` (app.py:112-201): a line-oriented state machine
 * that turns the model's free-text reply into a fixed record of two score
 * texts, five ordered lists and one accumulated summary.
 *
 * `Step` is one turn of the loop as a function and `Run` folds it over the
 * lines; `Parse` is the whole function as a specification, and the method
 * `ParseGeminiResponse` is the loop itself, proved to compute `Parse`.
 */
module ReplyParser {
  import opened Wrappers
  import opened Text
  import opened Score

  /** The eight sections the prompt asks for, in the order the parser tests their headers. */
  datatype Section =
    | AtsScore
    | GlobalPercentile
    | KeySkills
    | MissingSkills
    | ExperienceAnalysis
    | ProfileSummary
    | ImprovementSuggestions
    | AtsOptimizationTips

  /** The header literal of each section, shared by the prompt and the parser. */
  function Header(s: Section): string {
    match s
    case AtsScore => "ATS SCORE:"
    case GlobalPercentile => "GLOBAL PERCENTILE:"
    case KeySkills => "KEY SKILLS FOUND:"
    case MissingSkills => "MISSING SKILLS:"
    case ExperienceAnalysis => "EXPERIENCE ANALYSIS:"
    case ProfileSummary => "PROFILE SUMMARY:"
    case ImprovementSuggestions => "IMPROVEMENT SUGGESTIONS:"
    case AtsOptimizationTips => "ATS OPTIMIZATION TIPS:"
  }

  /** Position of a section's header in the order the parser tests them. */
  function Rank(s: Section): nat {
    match s
    case AtsScore => 0
    case GlobalPercentile => 1
    case KeySkills => 2
    case MissingSkills => 3
    case ExperienceAnalysis => 4
    case ProfileSummary => 5
    case ImprovementSuggestions => 6
    case AtsOptimizationTips => 7
  }

  /** The two sections whose value is read from the header line itself. */
  predicate IsScoreSection(s: Section) {
    s == AtsScore || s == GlobalPercentile
  }

  /** The five sections that collect one item per content line. */
  predicate IsListSection(s: Section) {
    !IsScoreSection(s) && s != ProfileSummary
  }

  /** The `sections` dictionary built by the parser. */
  datatype Record = Record(
    atsScore: string,
    globalPercentile: string,
    keySkills: seq<string>,
    missingSkills: seq<string>,
    experienceAnalysis: seq<string>,
    profileSummary: string,
    improvementSuggestions: seq<string>,
    atsOptimizationTips: seq<string>)
  {
    /** The list stored under a list section's key. */
    function Items(s: Section): seq<string>
      requires IsListSection(s)
    {
      match s
      case KeySkills => keySkills
      case MissingSkills => missingSkills
      case ExperienceAnalysis => experienceAnalysis
      case ImprovementSuggestions => improvementSuggestions
      case AtsOptimizationTips => atsOptimizationTips
    }

    /** `sections[s].append(item)`: one list grows by `item`, nothing else changes. */
    function WithItem(s: Section, item: string): (r: Record)
      requires IsListSection(s)
      ensures r.Items(s) == Items(s) + [item]
      ensures forall t :: IsListSection(t) && t != s ==> r.Items(t) == Items(t)
      ensures r.atsScore == atsScore && r.globalPercentile == globalPercentile
      ensures r.profileSummary == profileSummary
    {
      match s
      case KeySkills => this.(keySkills := keySkills + [item])
      case MissingSkills => this.(missingSkills := missingSkills + [item])
      case ExperienceAnalysis => this.(experienceAnalysis := experienceAnalysis + [item])
      case ImprovementSuggestions => this.(improvementSuggestions := improvementSuggestions + [item])
      case AtsOptimizationTips => this.(atsOptimizationTips := atsOptimizationTips + [item])
    }
  }

  /** The record the parser starts from and returns for an absent or empty reply. */
  const Default: Record := Record("0", "0", [], [], [], "", [], [])

  /** The literals of the defensive guard in the list-section branch. */
  const ListHeaderLines: seq<string> :=
    ["KEY SKILLS FOUND:", "MISSING SKILLS:", "EXPERIENCE ANALYSIS:",
     "IMPROVEMENT SUGGESTIONS:", "ATS OPTIMIZATION TIPS:"]

  /** The sections in the order the parser tests their headers. */
  const HeaderOrder: seq<Section> :=
    [AtsScore, GlobalPercentile, KeySkills, MissingSkills,
     ExperienceAnalysis, ProfileSummary, ImprovementSuggestions, AtsOptimizationTips]

  /** Which headers occur in the upper-cased line. */
  function Occurs(upper: string): Section -> bool {
    s => Contains(upper, Header(s))
  }

  /**
   * `r` is the first section in the parser's order that satisfies `occurs`,
   * or none when no section does.
   */
  predicate IsFirst(occurs: Section -> bool, r: Option<Section>) {
    match r
    case Some(s) => occurs(s) && forall t :: Rank(t) < Rank(s) ==> !occurs(t)
    case None => forall t :: !occurs(t)
  }

  /** A failed test after failed tests of every earlier section extends the run of failures by one. */
  lemma NoneUpTo(occurs: Section -> bool, s: Section)
    requires !occurs(s) && forall t :: Rank(t) < Rank(s) ==> !occurs(t)
    ensures forall t :: Rank(t) <= Rank(s) ==> !occurs(t)
  {
  }

  /** `r` is what the chain of header tests gives for the upper-cased line `upper`. */
  predicate IsFirstMatch(upper: string, r: Option<Section>) {
    IsFirst(Occurs(upper), r)
  }

  /** The first section of `order` that satisfies `occurs`. */
  function First(occurs: Section -> bool, order: seq<Section>): (r: Option<Section>)
    ensures r.Some? ==> occurs(r.value)
    decreases |order|
  {
    if order == [] then None
    else if occurs(order[0]) then Some(order[0])
    else First(occurs, order[1..])
  }

  /** The section whose header the upper-cased line contains, testing the headers in the parser's order. */
  function MatchHeader(upper: string): (r: Option<Section>)
    ensures r.Some? ==> Contains(upper, Header(r.value))
  {
    First(Occurs(upper), HeaderOrder)
  }

  /**
   * `First` finds the first position of `order` that satisfies `occurs`, and
   * finds none exactly when no element of `order` does.
   */
  lemma {:induction false} FirstSpec(occurs: Section -> bool, order: seq<Section>)
    ensures First(occurs, order).None? <==> forall j :: 0 <= j < |order| ==> !occurs(order[j])
    ensures First(occurs, order).Some? ==>
      exists i :: 0 <= i < |order| && order[i] == First(occurs, order).value &&
        forall j :: 0 <= j < i ==> !occurs(order[j])
    decreases |order|
  {
    if order != [] && !occurs(order[0]) {
      var rest := order[1..];
      FirstSpec(occurs, rest);
      assert forall j :: 1 <= j < |order| ==> order[j] == rest[j - 1];
      if First(occurs, rest).Some? {
        var i :| 0 <= i < |rest| && rest[i] == First(occurs, rest).value &&
          forall j :: 0 <= j < i ==> !occurs(rest[j]);
        assert order[i + 1] == rest[i];
      }
    }
  }

  /** `Rank` is the position in `HeaderOrder`. */
  lemma RankIsPosition()
    ensures |HeaderOrder| == 8
    ensures forall s :: HeaderOrder[Rank(s)] == s
    ensures forall i :: 0 <= i < 8 ==> Rank(HeaderOrder[i]) == i
  {
  }

  /** Searching `HeaderOrder` gives the first section in the parser's order ... */
  lemma FirstInOrder(occurs: Section -> bool)
    ensures IsFirst(occurs, First(occurs, HeaderOrder))
  {
    FirstSpec(occurs, HeaderOrder);
    RankIsPosition();
    var r := First(occurs, HeaderOrder);
    if r.Some? {
      var i :| 0 <= i < |HeaderOrder| && HeaderOrder[i] == r.value &&
        forall j :: 0 <= j < i ==> !occurs(HeaderOrder[j]);
      assert Rank(r.value) == i;
    } else {
      forall t ensures !occurs(t) {
        assert HeaderOrder[Rank(t)] == t;
      }
    }
  }

  /** ... and that is the only answer with this property. */
  lemma FirstUnique(occurs: Section -> bool, r: Option<Section>)
    requires IsFirst(occurs, r)
    ensures r == First(occurs, HeaderOrder)
  {
    FirstInOrder(occurs);
  }

  /** `MatchHeader` gives the first header that occurs, in the parser's order, and is the only answer that does. */
  lemma MatchHeaderSpec(upper: string, r: Option<Section>)
    ensures IsFirstMatch(upper, MatchHeader(upper))
    ensures IsFirstMatch(upper, r) ==> r == MatchHeader(upper)
  {
    FirstInOrder(Occurs(upper));
    if IsFirstMatch(upper, r) {
      FirstUnique(Occurs(upper), r);
    }
  }

  /** There is no match exactly when the line contains no header at all. */
  lemma MatchHeaderNone(upper: string)
    ensures MatchHeader(upper).None? <==> forall s :: !Contains(upper, Header(s))
  {
    MatchHeaderSpec(upper, None);
  }

  /**
   * Every header ends in a colon and upper-casing leaves colons alone, so a
   * line that matched a header has a colon and `line.split(':')[1]` exists.
   */
  lemma HeaderColon(line: string, s: Section)
    ensures Contains(Upper(line), Header(s)) ==> ':' in line
  {
    var u := Upper(line);
    ContainsLastChar(u, Header(s));
    if ':' in u {
      var i :| 0 <= i < |u| && u[i] == ':';
      assert line[i] == ':';
    }
  }

  /** The text of a line that has a colon: the lines a header can match. */
  type ColonText = t: string | ':' in t witness ":"

  /** `line.split(':')[1].strip()`: the text between the first and second colon, trimmed. */
  function ScoreText(line: ColonText): string {
    Strip(Split(line, ':')[1])
  }

  /** The value a numeric header line stores (app.py:135-145 and 150-161). */
  function ScoreOf(line: ColonText): (r: string)
    ensures IsNatText(r)
  {
    ParseScore(ScoreText(line))
  }

  /** What one raw line is to the parser once stripped. */
  datatype Line =
    | Blank
    | HeaderLine(section: Section, header: ColonText)
    | ContentLine(text: string)

  /**
   * Strips the line and tests it: blank, a header line for the first header
   * its upper-cased text contains, or content. A header line always has a
   * colon, so reading its score never fails.
   */
  function Classify(raw: string): (k: Line)
    ensures k.HeaderLine? ==> Contains(Upper(k.header), Header(k.section))
  {
    var line := Strip(raw);
    if line == "" then Blank
    else
      match MatchHeader(Upper(line))
      case Some(s) =>
        HeaderColon(line, s);
        HeaderLine(s, line)
      case None => ContentLine(line)
  }

  /** The loop's state: the dictionary and the `current_section` cursor. */
  datatype State = State(sections: Record, current: Option<Section>)

  /** Before the first line: the default record and no section yet. */
  const Start: State := State(Default, None)

  /** What a header line stores: a new score for a numeric header, nothing otherwise. */
  function Rescore(r: Record, s: Section, line: ColonText): Record {
    if s == AtsScore then r.(atsScore := ScoreOf(line))
    else if s == GlobalPercentile then r.(globalPercentile := ScoreOf(line))
    else r
  }

  /** What a non-header line stores under the current section. */
  function Store(r: Record, current: Option<Section>, line: string): Record {
    match current
    case None => r
    case Some(s) =>
      if IsScoreSection(s) then r
      else if s == ProfileSummary then r.(profileSummary := r.profileSummary + line + " ")
      else if StartsWith(line, "- ") then r.WithItem(s, line[2..])
      else if line !in ListHeaderLines then r.WithItem(s, line)
      else r
  }

  /** The effect of one classified line: a header moves the cursor, content is stored. */
  function Apply(st: State, k: Line): State {
    match k
    case Blank => st
    case HeaderLine(s, line) => State(Rescore(st.sections, s, line), Some(s))
    case ContentLine(line) => State(Store(st.sections, st.current, line), st.current)
  }

  /** One turn of the loop on one raw line of the reply. */
  function Step(st: State, raw: string): State {
    Apply(st, Classify(raw))
  }

  /** The loop over `lines`, from state `st`. */
  function Run(st: State, lines: seq<string>): State
    decreases |lines|
  {
    if lines == [] then st else Step(Run(st, lines[..|lines| - 1]), lines[|lines| - 1])
  }

  /** `parse_gemini_response` as a function; `None` stands for Python's `None`. */
  function Parse(responseText: Option<string>): Record {
    if responseText.None? || responseText.value == "" then Default
    else Run(Start, Split(responseText.value, '\n')).sections
  }

  /** A blank or whitespace-only line leaves the state as it is. */
  lemma StepBlank(st: State, raw: string)
    requires Strip(raw) == ""
    ensures Step(st, raw) == st
  {
  }

  /** A header line moves the cursor to the first header it contains and stores only a score. */
  lemma StepHeader(st: State, raw: string, s: Section)
    requires Strip(raw) != "" && MatchHeader(Upper(Strip(raw))) == Some(s)
    ensures ':' in Strip(raw)
    ensures Step(st, raw) == State(Rescore(st.sections, s, Strip(raw)), Some(s))
  {
    HeaderColon(Strip(raw), s);
  }

  /** Any other line is content for the current section. */
  lemma StepContent(st: State, raw: string)
    requires Strip(raw) != "" && MatchHeader(Upper(Strip(raw))) == None
    ensures Step(st, raw) == State(Store(st.sections, st.current, Strip(raw)), st.current)
  {
  }

  /**
   * The chain of header tests of the loop body: the headers are tried in
   * the parser's order and the first that occurs in the upper-cased line wins.
   */
  method FindHeader(upper: string) returns (header: Option<Section>)
    ensures IsFirstMatch(upper, header)
  {
    if Contains(upper, Header(AtsScore)) {
      return Some(AtsScore);
    }
    NoneUpTo(Occurs(upper), AtsScore);
    if Contains(upper, Header(GlobalPercentile)) {
      return Some(GlobalPercentile);
    }
    NoneUpTo(Occurs(upper), GlobalPercentile);
    if Contains(upper, Header(KeySkills)) {
      return Some(KeySkills);
    }
    NoneUpTo(Occurs(upper), KeySkills);
    if Contains(upper, Header(MissingSkills)) {
      return Some(MissingSkills);
    }
    NoneUpTo(Occurs(upper), MissingSkills);
    if Contains(upper, Header(ExperienceAnalysis)) {
      return Some(ExperienceAnalysis);
    }
    NoneUpTo(Occurs(upper), ExperienceAnalysis);
    if Contains(upper, Header(ProfileSummary)) {
      return Some(ProfileSummary);
    }
    NoneUpTo(Occurs(upper), ProfileSummary);
    if Contains(upper, Header(ImprovementSuggestions)) {
      return Some(ImprovementSuggestions);
    }
    NoneUpTo(Occurs(upper), ImprovementSuggestions);
    if Contains(upper, Header(AtsOptimizationTips)) {
      return Some(AtsOptimizationTips);
    }
    NoneUpTo(Occurs(upper), AtsOptimizationTips);
    return None;
  }

  /**
   * One pass of the loop body on the raw line `raw`: skip a blank line; on
   * a header line move the cursor to its section and, for a numeric header,
   * store the score read from the line; otherwise store the line under the
   * current section. It computes one `Step`.
   */
  method HandleLine(sections: Record, current: Option<Section>, raw: string)
    returns (sections': Record, current': Option<Section>)
    ensures State(sections', current') == Step(State(sections, current), raw)
  {
    sections', current' := sections, current;
    var line := Strip(raw);
    if line == "" {
      StepBlank(State(sections, current), raw);
      return;
    }
    var upper := Upper(line);
    var header := FindHeader(upper);
    MatchHeaderSpec(upper, header);
    if header.Some? {
      var section := header.value;
      StepHeader(State(sections, current), raw, section);
      current' := header;
      if section == AtsScore {
        sections' := sections.(atsScore := ScoreOf(line));
      } else if section == GlobalPercentile {
        sections' := sections.(globalPercentile := ScoreOf(line));
      }
      return;
    }
    StepContent(State(sections, current), raw);
    sections' := StoreLine(sections, current, line);
  }

  /**
   * The content branch of the loop body: a line under a numeric header is
   * ignored, the summary gets the line and a space, and a list gets the line
   * without its `"- "` bullet unless the line is one of the guard's literals.
   */
  method StoreLine(sections: Record, current: Option<Section>, line: string) returns (sections': Record)
    ensures sections' == Store(sections, current, line)
  {
    sections' := sections;
    if current.Some? {
      var section := current.value;
      if IsScoreSection(section) {
        // lines under a numeric header are ignored
      } else if section == ProfileSummary {
        sections' := sections.(profileSummary := sections.profileSummary + line + " ");
      } else if StartsWith(line, "- ") {
        sections' := sections.WithItem(section, line[2..]);
      } else if line !in ListHeaderLines {
        sections' := sections.WithItem(section, line);
      }
    }
  }

  /**
   * `parse_gemini_response`: an absent or empty reply gives the default
   * record; otherwise the loop runs over the reply's lines, updating the
   * dictionary and the section cursor. It computes `Parse`.
   */
  method ParseGeminiResponse(responseText: Option<string>) returns (sections: Record)
    ensures sections == Parse(responseText)
  {
    sections := Default;
    if responseText.Some? && responseText.value != "" {
      var current: Option<Section> := None;
      var lines := Split(responseText.value, '\n');
      for k := 0 to |lines|
        invariant State(sections, current) == Run(Start, lines[..k])
      {
        assert lines[..k + 1][..k] == lines[..k];
        sections, current := HandleLine(sections, current, lines[k]);
      }
      assert lines[..|lines|] == lines;
    }
  }
}
