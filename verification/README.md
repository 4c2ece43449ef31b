# ATS reply parser — a verified model

The ATS checker sends a résumé and a job description to a language model. The prompt asks for a reply in a fixed format: eight headers, each followed by its content. `parse_gemini_response` (app.py:112-201) reads that free-text reply back into a fixed record:

- two score texts, `ats_score` and `global_percentile`, both defaulting to `'0'`;
- five ordered lists: key skills, missing skills, experience analysis, improvement suggestions and ATS optimisation tips;
- one accumulated `profile_summary` string.

The parser is a line-oriented state machine. Each line of the reply is stripped and skipped when blank. Otherwise the upper-cased line is compared against the eight header texts in a fixed order. The first header found moves a `current_section` cursor. For the two numeric headers, the line's score is also read:

1. take the text between the first and the second colon;
2. keep its digits and points;
3. parse it as a float;
4. round it half to even, and store the result as a decimal string, or `'0'` when the float parse fails.

Any other line is stored under the current section:

- ignored under a numeric header (and before the first header);
- appended with a trailing space to the summary;
- appended to a list, without a leading `"- "`.

## Project layout

| file | module | contents |
|---|---|---|
| `wrappers.dfy` | `Wrappers` | `Option` (Python's `None` for an absent reply) |
| `text.dfy` | `Text` | Models of the `str` methods the parser uses. `strip` uses Python's whole `isspace` set; `split`, `startswith` and `in` are exact on every character; only `upper` is limited to ASCII letters. |
| `score.dfy` | `Score` | The numeric step. It filters digits and points, reads them with Python's float-literal grammar (as an exact decimal), rounds half to even, and renders with `str(int)`. |
| `score_examples.dfy` | `ScoreExamples` | Worked cases of the numeric step: ties, rounding, stray characters, unparseable text |
| `reply_parser.dfy` | `ReplyParser` | The sections, the record and the header table. `Step`/`Run`/`Parse` specify the parser as functions. The methods `FindHeader`, `StoreLine`, `HandleLine` and `ParseGeminiResponse` are the loop itself, each proved to compute its specification. |
| `parser_properties.dfy` | `ParserProperties` | Properties of the parser: defaults, the header priority, blank and dropped lines, score semantics, list and summary collection, the record invariant, and monotonicity |
| `round_trip.dfy` | `RoundTrip` | The reply format the prompt asks for (app.py:52-72), and a proof that parsing a reply written in that format gives back the record it was written from |
| `reply_examples.dfy` | `ReplyExamples` | Worked replies: one that gives only three of the eight headers, and a summary whose lines together spell a header |

The loop is imperative and is modelled as a method with a `for` loop. Its invariant is `State(sections, current) == Run(Start, lines[..k])`.

The `sections` dictionary is local to the Python function and never aliased. It is therefore a `Record` value that the loop reassigns, and the in-place `append`, `+=` and score writes become record updates.

## Model

| member | source | states |
|---|---|---|
| ReplyParser.ParseGeminiResponse | app.py:112-201 | The loop over the reply's lines returns exactly `Parse(responseText)`. This is the default record for `None` or `""`, and otherwise the fold of one `Step` per line of `split('\n')`. |
| ReplyParser.HandleLine | app.py:127-199 | One pass of the loop body on a raw line computes exactly one `Step`: a blank line changes nothing, a header moves the cursor and stores its score, anything else is stored as content. |
| ReplyParser.FindHeader | app.py:132-186 | The chain of eight `if … in line.upper()` tests returns the first section, in the parser's order, whose header occurs in the line, and `None` exactly when no header occurs. |
| ReplyParser.StoreLine | app.py:188-199 | The content branch updates the dictionary exactly as `Store` says: nothing under a numeric header or with no section yet, `line + ' '` onto the summary, `line[2:]` or `line` onto a list unless the guard rejects it. |
| ReplyParser.MatchHeaderSpec | app.py:132-186 | `MatchHeader` gives the first header that occurs in the upper-cased line, and it is the only answer with that property. |
| ReplyParser.MatchHeaderNone | app.py:132-186 | No header matches exactly when the line contains none of the eight header texts. |
| ReplyParser.HeaderColon | app.py:132-135 | A line whose upper-case form contains a header has a colon, so `line.split(':')[1]` always exists. |
| ReplyParser.Classify | app.py:128-186 | A line classified as a header line contains its section's header once upper-cased, so it has a colon and its score can be read. `ParserProperties.ClassifyCases` gives the blank and content cases. |
| ReplyParser.StepBlank | app.py:128-130 | A line that strips to nothing leaves the state unchanged. |
| ReplyParser.StepHeader | app.py:132-186 | A header line moves the cursor to its section and changes only that section's score. |
| ReplyParser.StepContent | app.py:188-199 | A non-blank line with no header is stored under the current section and leaves the cursor alone. |
| ReplyParser.ScoreOf | app.py:135-145 | The value a numeric header stores is always the text of a natural number. |
| ReplyParser.Record.WithItem | app.py:196-199 | `append` on one list adds the item at its end and changes no other field. |
| ReplyParser.RankIsPosition | app.py:132-186 | The rank of a section is its position in the order the headers are tried. |
| ReplyParser.FirstSpec | app.py:132-186 | The first-match search finds the first position whose header occurs, and finds none exactly when no header occurs. |
| Score.ParseScore | app.py:135-145 | The stored score is always a canonical natural-number text. It is `"0"` when the filtered text is no float literal, and otherwise the value rounded half to even. |
| Score.KeepNumeric | app.py:137-138 | The digit filter keeps only digits and points, and leaves a text of digits and points unchanged. |
| Score.KeepNumericChar | app.py:137-138 | The filter keeps a single digit or point and drops any other character. |
| Score.KeepNumericConcat | app.py:137-138 | The filter works piecewise, so it keeps the surviving characters in their original order. |
| Score.ParseFloat | app.py:141 | `float` accepts a digits-and-points text exactly when it has at most one point and at least one digit. A text of digits alone is read as that integer. |
| Score.DotIndex | app.py:141 | Finds the first point: no point before it, and a point at it unless it is the end. |
| Score.RoundHalfEven | app.py:142-143 | `round` gives an integer within one half of the exact value, and an even one on a tie. |
| Score.RoundHalfEvenUnique | app.py:142-143 | Those two conditions pin down the rounded value uniquely. |
| Score.NatToString | app.py:143 | `str(n)` is a canonical digit text whose value is `n`. |
| Score.NatTextUnique | app.py:143 | `str` inverts `int` on canonical texts, so each natural has exactly one text. |
| Score.ParseScoreOfNatText | app.py:135-145 | A stored score read back through the numeric step is unchanged. |
| Score.ParseScoreRounds | app.py:141-143 | A float literal is stored as the text of its rounded value. |
| Score.NatTextIsFloat | app.py:141 | A canonical number text is a float literal with that value. |
| Score.DecimalLiteral | app.py:141 | `whole.frac` made of digits is a float literal whose value is the digits of `whole + frac` over ten to the length of `frac`. |
| Score.ParseScoreOfLiteral | app.py:137-143 | `whole.frac` is stored as the text of its value rounded half to even. |
| ScoreExamples.ParseScoreTieDown | app.py:142-143 | `72.5` is stored as `72` (a tie goes to the even neighbour). |
| ScoreExamples.ParseScoreTieUp | app.py:142-143 | `73.5` is stored as `74`. |
| ScoreExamples.ParseScoreRoundsUp | app.py:142-143 | `64.6` is stored as `65`. |
| ScoreExamples.ParseScoreRoundsDown | app.py:142-143 | `64.4` is stored as `64`. |
| ScoreExamples.ParseScorePercent | app.py:137-143 | `87%` is stored as `87`, because characters other than digits and points are dropped. |
| ScoreExamples.ParseScoreNoDigits | app.py:139-145 | `N/A`, the empty text and `.` are no float literal and store `"0"`. |
| ScoreExamples.ParseScoreTwoPoints | app.py:139-145 | `1.2.3` is no float literal and stores `"0"`. |
| Text.SpaceIsNoText | app.py:128 | The whitespace `strip()` removes (`Text.IsSpace`, Python's `isspace` set) holds no letter, digit, colon or point, so stripping never removes a character of a header or a score. |
| Text.Upper | app.py:132 | `line.upper()` keeps the length and upper-cases each character: the ASCII letters `a`-`z`, all other characters unchanged. |
| Text.Strip | app.py:128 | `strip()` removes a whitespace prefix and suffix. It is empty exactly when the line is all whitespace, and otherwise starts and ends with a non-whitespace character. |
| Text.StripPadded | app.py:128 | Stripping whitespace margins off a text with non-whitespace ends gives that text back. |
| Text.UpperConcat | app.py:132 | Upper-casing works piecewise on a concatenation. |
| Text.Split | app.py:127 | `split(sep)` gives at least one piece, no piece holds `sep`, and joining the pieces with `sep` gives the text back. It gives two or more pieces exactly when `sep` occurs. |
| Text.SplitJoin | app.py:127 | Splitting pieces that were joined with a separator they do not contain gives the pieces back. |
| Text.SplitSecondPiece | app.py:135 | In `a:b…` with no colon in `a` or `b`, `split(':')[1]` is `b`. |
| Text.Contains | app.py:132 | A text containing a pattern (`pat in s`) is at least as long as the pattern. |
| Text.OccursContains | app.py:132 | A pattern that occurs at some position of a text is `in` that text. |
| Text.ContainsOccurs | app.py:132 | `pat in s` holds exactly when `pat` occurs at some position of `s`. |
| Text.StartsWithConcat | app.py:195 | `line.startswith('- ')` holds exactly when the line is `'- '` followed by some rest. |
| Text.ContainsLastChar | app.py:132 | A text containing a pattern contains the pattern's last character. |
| ParserProperties.ParseDefaults | app.py:114-125 | `None` and `""` give the default record: both scores `'0'`, every list empty, an empty summary. |
| ParserProperties.ClassifyCases | app.py:128-186 | A line is blank exactly when it strips to nothing, and a header line exactly when its stripped text contains a header text in any letter case. Content carries the stripped text. |
| ParserProperties.RunReplay | app.py:127-199 | The loop on raw lines is the loop on their classifications. |
| ParserProperties.ContentDropped | app.py:128-190 | Content lines before the first header, or under a numeric header, change neither the record nor the cursor. |
| ParserProperties.NoHeaderGivesDefault | app.py:125-201 | A reply with no header line parses to the default record. |
| ParserProperties.HeaderLineSwitches | app.py:132-186 | A line containing a header text moves the cursor to the first header in the parser's order. Lists and summary stay as they were, and only the score of that section can change. |
| ParserProperties.ApplyHeader | app.py:132-186 | Applying a header line moves the cursor to its section and changes at most that section's score. |
| ParserProperties.GuardNeverFires | app.py:197-198 | Every guard literal is itself a header line, so a line that reaches the guard is never one of them. |
| ParserProperties.StoreListLine | app.py:193-199 | In a list section a header-free line always adds its item, `line[2:]` after `"- "` and the line itself otherwise. |
| ParserProperties.UnparseableScoreWritesZero | app.py:139-161 | A numeric header whose value is no float literal stores `'0'`, overwriting any earlier value. |
| ParserProperties.ScoreOfSecondSegment | app.py:135 | The score is read from the segment between the first and second colon, not from all the text after the first colon. |
| ParserProperties.ScoreIsLastOccurrence | app.py:132-162 | Each score field holds the value of the last header line for it, or `'0'` when there is none. A later occurrence overwrites an earlier one. |
| ParserProperties.ReplayKeepsCursor | app.py:188-199 | Without a header line the cursor never moves. |
| ParserProperties.ListBlockCollects | app.py:193-199 | Under a list header, the content lines are appended in order, each without its `"- "`, and nothing else changes. |
| ParserProperties.SummaryBlockCollects | app.py:191-192 | Under the summary header, the summary grows by each content line followed by a space, in order, and nothing else changes. |
| ParserProperties.SectionBlock | app.py:164-199 | A list header followed by header-free lines collects exactly those lines' items. A repeated header appends and never clears. |
| ParserProperties.ReplayAbsentContent | app.py:164-199 | A list or the summary whose header never occurs keeps what it held, and the cursor never reaches it. |
| ParserProperties.ReplayAbsentScore | app.py:132-162 | A score whose header never occurs keeps its value. |
| ParserProperties.AbsentHeaderDefault | app.py:114-199 | In any reply, a field whose header never occurs stays at its default (`'0'`, an empty list, an empty summary), whatever the headers that do occur fill in. |
| ParserProperties.JoinedLength | app.py:191-192 | The summary text is as long as its lines together, plus one per line. |
| ParserProperties.ClassifyTidy | app.py:128-186 | A content line is non-empty, does not end in whitespace and holds no header text in any letter case. |
| ParserProperties.ParseWellFormed | app.py:112-201 | For every reply, both scores are canonical natural-number texts, so `int(...)` at app.py:324 succeeds. Every list item is non-empty and holds no header text. |
| ParserProperties.StoreWellFormed | app.py:188-199 | Storing a content line keeps the record invariant. |
| ParserProperties.ApplyWellFormed | app.py:127-199 | One classified line keeps the record invariant. |
| ParserProperties.RunGrows | app.py:127-199 | Nothing the loop has collected is ever removed: every list and the summary only grow. |
| ParserProperties.StoreGrows | app.py:188-199 | Storing a content line never removes anything collected. |
| ParserProperties.RescoreGrows | app.py:132-162 | A header line changes at most the scores. |
| RoundTrip.ParseRender | app.py:112-201 | Every record the prompt's format (app.py:52-72) can express is recovered exactly: rendering it as a reply with the eight headers in order and parsing that reply gives it back. |
| RoundTrip.RunRender | app.py:127-199 | The loop over a rendered reply ends in the rendered record, with the cursor on the last section. |
| RoundTrip.HeaderLineMatch | app.py:132-186 | A header followed by colon-free upper-case text matches exactly that header. No earlier header is hidden in it. |
| RoundTrip.HeaderLineParses | app.py:128-186 | Each header on a line of its own is a non-blank stripped line that matches its own section. |
| RoundTrip.EarlierHeaderAbsent | app.py:132-186 | A line that starts with a header and has its only colon at that header's end contains no header tried before it. |
| RoundTrip.ScoreLineValue | app.py:135-145 | The score line `HEADER: n` of the prompt's format (app.py:52-54) stores `n` for a canonical number `n`. |
| RoundTrip.DashedContent | app.py:195-196 | The `"- "` lines of a list give back exactly its items. |
| RoundTrip.SummaryContent | app.py:191-192 | A one-line summary is read back as that line followed by a space. |
| ReplyExamples.ShortHeaderFree | app.py:132-186 | Every header text is at least ten characters long, so a shorter line never holds one. |
| ReplyExamples.PartialReply | app.py:112-201 | The reply `ATS SCORE: 72`, `KEY SKILLS FOUND:`, `- Python`, `- SQL`, `MISSING SKILLS:`, `- Go` fills the ATS score and the two lists, and leaves the global percentile, the other lists and the summary at their defaults. |
| ReplyExamples.SummarySpellsHeader | app.py:188-192 | Summary lines `foo ATS` and `SCORE: 5`, neither of which holds a header, are joined into a summary that contains `ATS SCORE:`. |

## Left out

- The Streamlit page is not part of this model (app.py:217-413): layout, CSS, session state, the career-level buttons, the tabs and the chat. It is presentation glue around the parser.
- `get_gemini_response` (app.py:41-83) is a network call and is not modelled. Only its eight header literals (app.py:52-72) are kept, as `ReplyParser.Header`, and its format, as `RoundTrip.Render`.
- `extract_text_from_pdf` (app.py:204-213) and `create_gauge_chart` (app.py:86-109) wrap PyPDF2 and Plotly and are not modelled.
- Score.ParseFloat: reads the number exactly, as a decimal. The model therefore does not capture float precision loss on very long digit strings. It also does not capture `round(inf)` raising an `OverflowError` on a huge digit string, which app.py:144 and 160 do not catch.
- Text.Upper: maps only the ASCII letters `a`-`z`, not every letter Python's Unicode `upper()` maps. A letter whose upper case is longer (`ß` to `SS`) is therefore not modelled. `Strip`, `Split`, `StartsWith` and `Contains` are not limited to ASCII: `Strip` removes every character Python's `str.isspace` accepts, and the other three compare characters exactly.
- Score.KeepNumeric: keeps only the ASCII digits `0`-`9`, not the other Unicode digits Python's `isdigit()` accepts.
- HandleLine and StoreLine: the loop body is factored into two helper methods, and `FindHeader` returns the matched section instead of repeating the score code for each of the two numeric headers.
- RoundTrip.ParseRender: covers replies whose summary is a single line. A longer summary is joined back with spaces, so it is not recovered line for line. List items must be non-empty, must not end in whitespace, and must hold no header text and no line break.
- ParserProperties.ClassifyTidy: shows that no single stored line holds a header text. The summary joins lines with spaces, so it can still spell a header across two of them; ReplyExamples.SummarySpellsHeader shows this for the lines `foo ATS` and `SCORE: 5`. Header freedom is therefore stated per line, not for the whole summary.
- Three behaviours of the code, kept as written, that a reader may not expect:
  - an unparseable score writes `'0'` and overwrites an earlier value, rather than leaving it unchanged;
  - the score is read from `split(':')[1]`, the text between the first and second colons;
  - the list guard at app.py:197-198 holds five literals.
