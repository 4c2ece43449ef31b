/**
 * Worked replies for the parser: a reply that gives only some of the
 * headers, and a summary whose lines together spell a header.
 */
module ReplyExamples {
  import opened Wrappers
  import opened Text
  import opened Score
  import opened ReplyParser
  import opened ParserProperties
  import opened RoundTrip

  /** A reply with a score, two key skills and one missing skill, ending in a line break. */
  const PartialLines: seq<string> := ["ATS SCORE: 72", "KEY SKILLS FOUND:", "- Python", "- SQL", "MISSING SKILLS:", "- Go", ""]

  /**
   * The text of that reply, `"ATS SCORE: 72\nKEY SKILLS FOUND:\n- Python\n- SQL\nMISSING SKILLS:\n- Go\n"`:
   * its lines joined with line breaks.
   */
  const PartialText: string := Join(PartialLines, '\n')

  /** Every header is at least ten characters long, so a shorter text holds none. */
  lemma ShortHeaderFree(t: string)
    requires |t| < 10
    ensures HeaderFree(t)
  {
    forall s ensures !Contains(Upper(t), Header(s)) {
      assert |Header(s)| >= 10;
    }
  }

  /** A short item without trailing whitespace or line break is one the reply format can carry. */
  lemma ShortItem(t: string)
    requires |t| < 10 && t != "" && !IsSpace(t[|t| - 1]) && '\n' !in t
    ensures IsItem(t)
  {
    ShortHeaderFree(t);
  }

  /** The three items of the reply are such items. */
  lemma PartialItems()
    ensures AllItems(["Python", "SQL"]) && AllItems(["Go"])
  {
    ShortItem("Python");
    ShortItem("SQL");
    ShortItem("Go");
  }

  /** The reply is a score line, two list blocks and an empty last line. */
  lemma PartialBlocks()
    ensures PartialLines ==
      [ScoreLine(AtsScore, "72")] + ListBlock(KeySkills, ["Python", "SQL"]) + ListBlock(MissingSkills, ["Go"]) + [""]
  {
    var d := Dashed(["Python", "SQL"]);
    assert d[0] == "- Python" && d[1] == "- SQL";
    var e := Dashed(["Go"]);
    assert e[0] == "- Go";
    assert ScoreLine(AtsScore, "72") == "ATS SCORE: 72";
  }

  /** The score line stores 72 and moves the cursor to the ATS score ... */
  lemma ScoreStage()
    ensures Run(Start, [ScoreLine(AtsScore, "72")]) ==
      State(Record("72", "0", [], [], [], "", [], []), Some(AtsScore))
  {
    assert IsNatText("72");
    assert [ScoreLine(AtsScore, "72")] == [ScoreLine(AtsScore, "72")] + [];
    RunCons(Start, ScoreLine(AtsScore, "72"), []);
    ScoreLineStep(Start, AtsScore, "72", ScoreLine(AtsScore, "72"));
  }

  /** ... the key-skills block collects its two items ... */
  lemma SkillsStage()
    ensures Run(State(Record("72", "0", [], [], [], "", [], []), Some(AtsScore)), ListBlock(KeySkills, ["Python", "SQL"])) ==
      State(Record("72", "0", ["Python", "SQL"], [], [], "", [], []), Some(KeySkills))
  {
    PartialItems();
    ListBlockRun(State(Record("72", "0", [], [], [], "", [], []), Some(AtsScore)), KeySkills, ["Python", "SQL"]);
  }

  /** ... the missing-skills block collects its item ... */
  lemma MissingStage()
    ensures Run(State(Record("72", "0", ["Python", "SQL"], [], [], "", [], []), Some(KeySkills)), ListBlock(MissingSkills, ["Go"])) ==
      State(Record("72", "0", ["Python", "SQL"], ["Go"], [], "", [], []), Some(MissingSkills))
  {
    PartialItems();
    ListBlockRun(State(Record("72", "0", ["Python", "SQL"], [], [], "", [], []), Some(KeySkills)), MissingSkills, ["Go"]);
  }

  /** ... and the empty last line changes nothing. */
  lemma BlankStage(st: State)
    ensures Run(st, [""]) == st
  {
    assert [""] == [""] + [];
    RunCons(st, "", []);
    StepBlank(st, "");
  }

  /** The loop over the reply's lines, stage by stage. */
  lemma PartialRun()
    ensures Run(Start, PartialLines).sections == Record("72", "0", ["Python", "SQL"], ["Go"], [], "", [], [])
  {
    PartialBlocks();
    var a := [ScoreLine(AtsScore, "72")];
    var b := ListBlock(KeySkills, ["Python", "SQL"]);
    var c := ListBlock(MissingSkills, ["Go"]);
    assert PartialLines == ((a + b) + c) + [""];
    RunAppend(Start, (a + b) + c, [""]);
    RunAppend(Start, a + b, c);
    RunAppend(Start, a, b);
    ScoreStage();
    SkillsStage();
    MissingStage();
    BlankStage(Run(Start, (a + b) + c));
  }

  /**
   * A reply with three of the eight headers fills those three fields and
   * leaves the global percentile, the other three lists and the summary at
   * their defaults.
   */
  lemma PartialReply()
    ensures Parse(Some(PartialText)) == Record("72", "0", ["Python", "SQL"], ["Go"], [], "", [], [])
  {
    SplitJoin(PartialLines, '\n');
    PartialRun();
  }

  /** Two summary lines, neither of which holds a header ... */
  const SpelledBody: seq<string> := ["foo ATS", "SCORE: 5"]

  /** ... under the summary header. */
  const SpelledLines: seq<string> := [Header(ProfileSummary)] + SpelledBody

  /** Short lines without surrounding whitespace are free of header text once stripped. */
  lemma ShortLinesFree(lines: seq<string>)
    requires forall i :: 0 <= i < |lines| ==> |lines[i]| < 10 && Unpadded(lines[i])
    ensures NoHeaderLines(lines)
  {
    forall i | 0 <= i < |lines| ensures HeaderFree(Strip(lines[i])) {
      StripUnpadded(lines[i]);
      ShortHeaderFree(lines[i]);
    }
  }

  /** Neither summary line holds header text ... */
  lemma SpelledFree()
    ensures NoHeaderLines(SpelledBody)
  {
    assert Unpadded(SpelledBody[0]) && Unpadded(SpelledBody[1]);
    ShortLinesFree(SpelledBody);
  }

  /** ... and both are kept as they are. */
  lemma SpelledContent()
    ensures ContentLines(SpelledBody) == SpelledBody
  {
    assert Unpadded(SpelledBody[0]) && Unpadded(SpelledBody[1]);
    ContentLinesUnpadded(SpelledBody);
  }

  /** The summary text of the two lines. */
  lemma SpelledJoined()
    ensures Joined(["foo ATS", "SCORE: 5"]) == "foo ATS SCORE: 5 "
  {
    assert ["foo ATS", "SCORE: 5"][..1] == ["foo ATS"];
    assert ["foo ATS"][..0] == [];
  }

  /** That summary text holds the ATS score header. */
  lemma SpelledContains()
    ensures Contains(Upper("foo ATS SCORE: 5 "), Header(AtsScore))
  {
    var u := Upper("foo ATS SCORE: 5 ");
    assert u[4..14] == "ATS SCORE:";
    assert StartsWith(u[4..], Header(AtsScore));
    ContainsInSuffix(u, 4, Header(AtsScore));
  }

  /** The loop over the lines stores their summary text. */
  lemma SpelledRun()
    ensures Run(Start, SpelledLines).sections.profileSummary == Joined(ContentLines(SpelledBody))
  {
    SpelledFree();
    HeaderLineStep(Start, ProfileSummary);
    RunCons(Start, Header(ProfileSummary), SpelledBody);
    SummaryBlockCollects(State(Default, Some(ProfileSummary)), SpelledBody);
  }

  /**
   * Each summary line is free of header text, yet the summary the parser
   * builds from them contains `ATS SCORE:`: the record invariant holds for
   * list items line by line, but not for the joined summary.
   */
  lemma SummarySpellsHeader()
    ensures NoHeaderLines(SpelledBody)
    ensures Run(Start, SpelledLines).sections.profileSummary == "foo ATS SCORE: 5 "
    ensures Contains(Upper(Run(Start, SpelledLines).sections.profileSummary), Header(AtsScore))
  {
    SpelledFree();
    SpelledRun();
    SpelledContent();
    SpelledJoined();
    SpelledContains();
  }
}
