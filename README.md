# Personal agent tools and REPL — a Dafny model

`agent.py` is a command-line assistant: a Gemini-backed LangChain agent
that is given five tools (Calculator, TextLength, DateTime, Weather,
WebSearch) and driven by a read-eval loop in `main`. The reasoning loop,
the conversation memory and the model client are library code; what the
repository itself decides is in the tool bodies and the loop around the
agent. This project models those decisions and proves what they promise:

- **WebSearch** (`web_search.dfy`): `search_web` lower-cases and trims the
  query and scans a nine-entry knowledge table in order, answering from
  the first key that contains the query or is contained in it. Only then
  does it try a Wikipedia page summary and a DuckDuckGo instant answer.
  The replies to those two requests are parameters. The answer comes with
  the list of requests that would have been sent. The DuckDuckGo
  `RelatedTopics` fold keeps the texts of the first three topics and
  joins them as a bulleted list.
- **DateTimeTool** (`date_time_tool.dfy`) and **Calendar** (`calendar.dfy`):
  `get_date_time` looks the lower-cased code up in a ten-entry table of
  whole-hour offsets. It reports the UTC time shifted by the offset,
  labelled by the code in capitals; or a "not supported" message; or,
  with no code, the local time. The two clock readings are parameters, as
  seconds from 1970-01-01 00:00:00. Calendar gives the proleptic
  Gregorian arithmetic behind Python's `datetime`: ordinals, the range of
  years 1 to 9999, and `strftime('%Y-%m-%d %H:%M:%S')` with a parser that
  reads it back.
- **Tools** (`tools.dfy`): the five registered tools, their names and
  descriptions, lookup by exact name, and `text_length`.
- **Session** (`session.dfy`): the classification of each input line
  (trimmed; `quit`/`exit`/`q` in any case ends the session; an empty line
  is skipped; anything else is a turn). Also the `while True` loop, as a
  method over the sequence of lines typed, proved equal to a recursive
  specification `Run`. The agent is a parameter: a function from the
  inputs sent so far and the new input to its output or the error it
  raised.
- **Text** (`text.dfy`) and **Wrappers** (`wrappers.dfy`): the Python
  string operations these rely on (`strip`, `lower`, `upper`, `in`,
  `join`, `str(int)`), and `Option`.

## Model

| member | source | states |
|---|---|---|
| WebSearch.StoredText | agent.py:92-102 | the text stored under each of the nine keys of the table `Keys`, in the table's order (a definition) |
| WebSearch.Matches | agent.py:109 | a key matches when the query is in it or it is in the query (a definition: `Unmatched`, `KnowledgeAnswer` and `FirstMatch` state its consequences) |
| WebSearch.ResultLine | agent.py:110 | an answer found is "Search result: " followed by the text (a definition) |
| WebSearch.FirstMatch | agent.py:108-110 | the position found holds a matching key and no earlier key matches; none is found only when no key matches |
| WebSearch.ScanKeys | agent.py:108-110 | the early-return scan finds a key exactly when some key matches, and it finds the first one |
| WebSearch.ScanKnowledge | agent.py:104-110 | the table scan of a query answers "Search result: " and the text of the first key matching the lower-cased, trimmed query |
| WebSearch.Normalize | agent.py:105 | the normalised query is no longer than the query, has no whitespace at either end, and is already in lower case |
| WebSearch.NormalizeIgnoresCaseAndPadding | agent.py:105 | surrounding whitespace and ASCII upper case do not change the normalised query |
| WebSearch.KnowledgeAnswer | agent.py:104-110 | the table gives no answer exactly when no key matches the normalised query either way; an answer is "Search result: " and the text of a matching key |
| WebSearch.KnowledgeIgnoresCaseAndPadding | agent.py:105-110 | the table answer ignores surrounding whitespace and ASCII case |
| WebSearch.BlankQueryHitsFirstEntry | agent.py:92-110 | a query that is blank after trimming is answered with the first entry, the capital of India |
| WebSearch.IndiaInCapitalKey | agent.py:93 | "india" is part of the first key |
| WebSearch.ShortWordHitsCapitalEntry | agent.py:92-110 | the query "India" is answered with the capital entry, not a monuments entry |
| WebSearch.MonumentsInTopMonuments | agent.py:95 | the last key lies inside the third key |
| WebSearch.MonumentsEntryShadowed | agent.py:95-110 | a query that is part of "monuments in india", that phrase itself included, is always answered by one of the first three entries, never by the last entry |
| WebSearch.TajMahalMatchesFourthKey | agent.py:93-109 | "taj mahal" first matches the fourth key |
| WebSearch.TajMahalKey | agent.py:96 | the fourth key is "taj mahal" |
| WebSearch.EarlyKeysUnmatched | agent.py:93-95 | a query of at most nine characters with a 'j' matches none of the first three keys |
| WebSearch.EarlyKeysLackJ | agent.py:93-95 | the first three keys have no 'j' and are longer than nine characters |
| WebSearch.FirstMatchAt | agent.py:108-110 | a matching key with no matching key before it is the first match |
| WebSearch.Unmatched | agent.py:109 | a query with a character a longer key lacks matches neither way |
| WebSearch.TajMahalNormalized | agent.py:105 | "Taj Mahal" normalises to "taj mahal" |
| WebSearch.TajMahalFromTable | agent.py:96-110 | "Taj Mahal" is answered with the Taj Mahal entry |
| WebSearch.TopicTexts | agent.py:134-136 | the kept texts are no more than the topics, each comes from a topic, the text of every topic that has one is kept, and none is kept only when no topic has text |
| WebSearch.TopicTextsInOrder | agent.py:134-136 | texts are kept in topic order: the texts of two lists one after the other are the first list's texts followed by the second's |
| WebSearch.TopicTextsOfOne | agent.py:135-136 | one topic contributes its text exactly when it has one |
| WebSearch.FirstThree | agent.py:132 | `RelatedTopics[:3]` is the first three topics, or all of them when there are fewer |
| WebSearch.CollectTopicTexts | agent.py:132-136 | the append loop over `RelatedTopics[:3]` keeps at most three texts, those of the first three topics that have one, in order |
| WebSearch.RelatedSummary | agent.py:131-139 | there is a summary exactly when one of the first three topics has text, and it starts "Search results:\n- " |
| WebSearch.RelatedSummaryIgnoresTail | agent.py:132 | topics after the third never change the summary |
| WebSearch.SummaryListsEachText | agent.py:138-139 | every collected text appears in the summary |
| WebSearch.SummaryListsFirstThreeTexts | agent.py:132-139 | the text of each of the first three topics that has one appears in the summary |
| WebSearch.NoTopicTextNoInformation | agent.py:127-141 | an empty abstract and no text among the first three topics give the "I don't have specific information" answer |
| WebSearch.NoInformation | agent.py:141 | the fallback answer quotes the query and never starts like a search result |
| WebSearch.DuckDuckGoStage | agent.py:124-141 | a raised request, a non-200 status or a body that is not JSON gives the fallback answer; otherwise the answer is the fallback or starts "Search result" |
| WebSearch.AbstractIsAnswer | agent.py:127-130 | a DuckDuckGo page with a non-empty abstract is answered "Search result: " and that abstract |
| WebSearch.SummaryIsAnswer | agent.py:129-139 | with an empty abstract, a page whose first three topics hold text is answered with the bulleted summary of those texts |
| WebSearch.Underscored | agent.py:115 | spaces become underscores and every other character is kept |
| WebSearch.Search | agent.py:104-145 | no request is sent exactly when the table answers, and the answer is then the table's; otherwise Wikipedia is asked first with the underscored query, and DuckDuckGo second with the raw query, exactly when Wikipedia replied without raising and gave a non-200 status or a page without an extract; a 200 page with an extract is answered "Search result: " and the extract, any other one-request case gets the fallback, and with two requests the answer is the DuckDuckGo stage's |
| WebSearch.AllLookupsFail | agent.py:104-145 | when the table misses, and Wikipedia raises, gives another status, sends no JSON or has no extract, and DuckDuckGo raises, gives another status, sends no JSON or has neither an abstract nor topic text, the answer is the fallback |
| WebSearch.SearchWeb | agent.py:104-145 | the method with its early returns computes `Search` |
| WebSearch.TajMahalSendsNoRequest | agent.py:108-113 | "Taj Mahal" is answered from the table whatever the lookups would return, and no request is sent |
| DateTimeTool.Offset | agent.py:59-60 | a code with an offset is in the table with that offset, a whole number of hours from -8 to 0 |
| DateTimeTool.Find | agent.py:59-60 | a code found is in the table with that offset; a code is not found exactly when no entry has it |
| DateTimeTool.SupportedCodes | agent.py:51-59 | exactly the ten codes utc, gmt, est, edt, cst, cdt, mst, mdt, pst, pdt are supported, each with an offset from -8 to 0 hours |
| DateTimeTool.TenDistinctCodes | agent.py:51-57 | the table has ten entries with ten different codes |
| DateTimeTool.Unsupported | agent.py:64 | the message for a code that is not in the table, quoting the lower-cased code (a definition) |
| DateTimeTool.ZoneHeading | agent.py:62 | a zone report is headed "Current date and time in ", the code in capitals and ": " (a definition) |
| DateTimeTool.Decide | agent.py:45-67 | the local time is reported exactly when the timezone is absent or empty, and then unshifted; every reported instant can be written |
| DateTimeTool.ForCode | agent.py:58-66 | an unknown code is reported as not supported, with the code; a known one is reported as UTC plus its offset in hours, or as out of range exactly when that shift falls before the first second `datetime` holds |
| DateTimeTool.Message | agent.py:62-67 | the local report is "Current date and time: " and 19 characters of timestamp; a zone report is the zone heading and 19 characters of timestamp |
| DateTimeTool.DateTime | agent.py:45-67 | without a timezone the report is headed "Current date and time: "; otherwise, for the lower-cased code: an unknown code gives "Timezone '<code>' not supported", a shift before the first second `datetime` holds gives the out-of-range error, and any other shift a report headed by the code in capitals |
| DateTimeTool.ReadBack | agent.py:62 | the timestamp written after a heading reads back as the instant it was made from |
| DateTimeTool.LocalTimeUnshifted | agent.py:67 | without a timezone the report is labelled "Current date and time: " and carries the local instant |
| DateTimeTool.SupportedZoneShifted | agent.py:58-62 | a supported code, in any case, reports the UTC instant plus the code's offset in hours, for the lower-cased code |
| DateTimeTool.ZoneReadBack | agent.py:62 | a zone report is headed "Current date and time in " and the code in capitals, and carries the shifted instant |
| DateTimeTool.ZoneTimeShifted | agent.py:58-62 | for a supported code in any case, the tool's report, read back under the code's heading, is the UTC instant plus the code's offset in hours |
| DateTimeTool.DecidedZoneReadBack | agent.py:62 | when the decision is a zone reading, the tool's report carries that reading's instant under the code's heading |
| DateTimeTool.ZoneCaseIgnored | agent.py:58 | a code in ASCII capitals gives the same report as the code as typed |
| DateTimeTool.EasternStandardTime | agent.py:53-62 | "est" in any case reports the UTC instant five hours earlier, labelled "EST" |
| DateTimeTool.EasternReading | agent.py:53-61 | the code "est" shifts by -18000 seconds |
| DateTimeTool.EasternOffset | agent.py:53 | "est" has offset -5 |
| DateTimeTool.EasternLabel | agent.py:62 | "est" in capitals is "EST" |
| DateTimeTool.UnknownZoneNotSupported | agent.py:58-64 | "XYZ" is reported as not supported, in lower case |
| DateTimeTool.UnknownCode | agent.py:58-59 | "XYZ" lower-cases to "xyz", which is not in the table |
| DateTimeTool.PaddedZoneNotSupported | agent.py:58-64 | a code with a leading space is not trimmed, so it is not supported |
| DateTimeTool.PaddedCode | agent.py:58-59 | " est" is not in the table |
| DateTimeTool.ShiftStaysBelowMax | agent.py:60-61 | a shift never passes the last second `datetime` holds, and leaves the range only within the first eight hours of year 1 |
| Calendar.MonthStep | agent.py:62 | the days before a month grow by that month's length, and those before month 13 are the year's days |
| Calendar.YearStep | agent.py:62 | the days before a year grow by that year's length |
| Calendar.DivisibilityChain | agent.py:62 | a multiple of 400 is a multiple of 100, and a multiple of 100 is a multiple of 4 |
| Calendar.QuotientStep | agent.py:62 | the count of multiples of 4, 100 or 400 up to y grows by one exactly at a multiple |
| Calendar.YearsIncrease | agent.py:62 | each later year starts at least 365 days later |
| Calendar.YearOf | agent.py:62 | finds the year and the day within it for a day count past the start of a year |
| Calendar.MonthOf | agent.py:62 | finds the month and the day within it for a day count within a year |
| Calendar.FromOrdinal | agent.py:62 | the date found for a day ordinal is well formed and has that ordinal |
| Calendar.OrdinalWithinYear | agent.py:62 | a date's ordinal lies within its year's ordinals |
| Calendar.MonthsIncrease | agent.py:62 | the days before a month grow with the month |
| Calendar.OrdinalInjective | agent.py:62 | two dates with the same ordinal are the same date |
| Calendar.SameOrdinalSameYear | agent.py:62 | two dates with the same day number are in the same year |
| Calendar.EarlierYearEarlierOrdinal | agent.py:62 | a date in an earlier year has a smaller day number |
| Calendar.SameOrdinalSameMonth | agent.py:62 | two dates of one year with the same day number are in the same month |
| Calendar.OrdinalRoundTrip | agent.py:62 | a date converted to its ordinal and back is unchanged |
| Calendar.EpochIsNewYear1970 | agent.py:62 | 1970-01-01 and 9999-12-31 have the ordinals `datetime` gives them |
| Calendar.SupportedYears | agent.py:62 | a date is within year 9999 exactly when its ordinal is at most that of 9999-12-31 |
| Calendar.FromSeconds | agent.py:61 | every instant from 0001-01-01 00:00:00 on has a valid date and time |
| Calendar.FromSecondsInverse | agent.py:61 | the date and time found for an instant gives back that instant |
| Calendar.SecondsInjective | agent.py:61 | two date-times at the same instant are the same |
| Calendar.SecondsRoundTrip | agent.py:61 | a date-time converted to seconds and back is unchanged |
| Calendar.InRangeIffSupportedYear | agent.py:61 | an instant is one `datetime` can hold exactly when its year is at most 9999 |
| Calendar.Digits | agent.py:62 | a zero-padded field has exactly the width asked for, all digits |
| Calendar.DigitsRoundTrip | agent.py:62 | a padded field reads back as its number |
| Calendar.Render | agent.py:62 | the `%Y-%m-%d %H:%M:%S` rendering is 19 characters long |
| Calendar.RenderRoundTrip | agent.py:62 | the rendering of a date-time up to year 9999 parses back to that date-time |
| Calendar.Layout | agent.py:62 | where each field and separator sits in the rendering |
| Tools.Find | agent.py:147-173 | a tool found is registered under exactly that name; none is found exactly when no tool has the name |
| Tools.RegistryComplete | agent.py:147-173 | five tools are registered, every kind once |
| Tools.NamesDistinct | agent.py:148-172 | no two tools share a name |
| Tools.Name | agent.py:149-169 | the name each tool is registered under, as written in the tool list (a definition: `NamesDistinct` and `LookupByName` state its properties) |
| Tools.Description | agent.py:151-171 | the description each tool is registered with, as written in the tool list (a definition, with no contract) |
| Tools.Lookup | agent.py:147-173 | a tool found has exactly that name; none is found exactly when no tool has that name, spelled with the same case |
| Tools.LookupByName | agent.py:147-173 | looking a tool up by its name finds it |
| Tools.LookupIsCaseSensitive | agent.py:169 | "websearch" does not find "WebSearch" |
| Tools.TextLengthReport | agent.py:43 | the report starts "Text length: " |
| Tools.TextLengthReadsBack | agent.py:43 | the number in the report is exactly the text's character count |
| Tools.TextLengthDistinguishes | agent.py:43 | texts of different lengths get different reports |
| Session.IsQuitWord | agent.py:211 | the words that end the session are "quit", "exit" and "q" (a definition, applied to the lower-cased line) |
| Session.Classify | agent.py:209-216 | a turn never carries an empty input |
| Session.ClassifyCases | agent.py:209-216 | a line quits exactly when its trimmed, lower-cased form is a quit word; it is skipped exactly when it trims to nothing; it is a turn exactly otherwise |
| Session.TurnIsTrimmed | agent.py:209 | a turn's input is the line with whitespace-only ends cut off and starts and ends with a non-space |
| Session.ClassifyIgnoresPadding | agent.py:209 | surrounding whitespace never changes how a line is classified |
| Session.QuitInAnyCase | agent.py:211 | a quit word in any case, padded or not, ends the session |
| Session.QuitWordTrimmed | agent.py:211 | a quit word has nothing to trim |
| Text.StripKeepsTrimmed | agent.py:209 | a string with non-space ends trims to itself |
| Session.TurnReclassified | agent.py:209-216 | a turn's input, typed again, is the same turn |
| Session.RateLimited | agent.py:226 | the rate-limit test: "429" anywhere in the error, or "quota" in its lower-cased form (a definition: `StatusCodeLimits`, `QuotaInAnyCase` and `NoDigitNoQuota` state its properties) |
| Session.StatusCodeLimits | agent.py:226 | an error mentioning 429 triggers the rate-limit wait |
| Session.QuotaInAnyCase | agent.py:226 | an error mentioning "quota" in any case triggers the rate-limit wait |
| Session.NoDigitNoQuota | agent.py:226 | an error with no digit and no letter q never triggers the wait |
| Session.Respond | agent.py:218-228 | an output is shown as the answer to the input; a raised error is recorded with the input, waiting exactly when it looks rate-limited |
| Session.Commands | agent.py:208-216 | each line typed is classified on its own |
| Session.Inputs | agent.py:208-222 | there are no more inputs sent than commands typed |
| Session.Run | agent.py:208-228 | there are no more events than lines read, and no more lines read than typed |
| Session.RunEnds | agent.py:208-213 | the session ends by running out of input exactly when no line quits, having read every line; otherwise it stops right after the first quit |
| Session.RunCallsAgent | agent.py:218-223 | one event per turn, in order, each the agent's reply to that input given every input sent before it |
| Session.AnswersPrepended | agent.py:218-223 | answering one more input first keeps the events in order |
| Session.InputsFromTurns | agent.py:215-222 | every input sent is the input of a turn typed |
| Session.InputsAreTurns | agent.py:209-222 | every input sent is non-empty and trimmed, and classifies as itself |
| Session.InputsBeforeQuit | agent.py:208-222 | the inputs sent are exactly the inputs of the turns before the first quit, or of all turns when there is none, in the order typed |
| Session.TurnsSent | agent.py:208-222 | every turn typed before the first quit is sent to the agent |
| Session.AfterQuitIgnored | agent.py:211-213 | lines after a quit never change the session |
| Session.RunSession | agent.py:208-228 | the loop over the lines typed produces exactly the events, ending and number of lines read of `Run` |
| Text.IsSpace | agent.py:105 | the characters `str.strip` removes: Python's whitespace characters (a definition) |
| Text.StripLeft | agent.py:105 | `lstrip` keeps at most the whole string and leaves no leading whitespace |
| Text.StripLeftCuts | agent.py:105 | `lstrip` cuts a whitespace prefix and keeps the rest as it was |
| Text.StripRight | agent.py:105 | `rstrip` keeps at most the whole string and leaves no trailing whitespace |
| Text.StripRightCuts | agent.py:105 | `rstrip` cuts a whitespace suffix and keeps the rest as it was |
| Text.Strip | agent.py:209 | `strip` leaves neither leading nor trailing whitespace |
| Text.StripCuts | agent.py:209 | `strip` keeps a slice of the string whose cut-off ends are whitespace |
| Text.StripLeftPadded | agent.py:105 | leading whitespace does not change `lstrip` |
| Text.StripRightPadded | agent.py:105 | trailing whitespace does not change `rstrip` |
| Text.StripIgnoresPadding | agent.py:105 | surrounding whitespace does not change `strip` |
| Text.AllSpaceAppend | agent.py:105 | whitespace after whitespace is whitespace |
| Text.AllSpaceStripsToEmpty | agent.py:105 | whitespace strips to nothing |
| Text.StripLeftAppend | agent.py:105 | after a non-space, `lstrip` keeps what follows |
| Text.LowerStr | agent.py:58 | `lower` keeps the length and lowers each character |
| Text.UpperStr | agent.py:62 | `upper` keeps the length and raises each character |
| Text.LowerAppend | agent.py:105 | lowering distributes over concatenation |
| Text.LowerKeepsSpace | agent.py:105 | lowering leaves whitespace alone |
| Text.LowerOfUpper | agent.py:58 | lowering a string in capitals gives the string lowered |
| Text.LowerIdempotent | agent.py:105 | lowering twice is lowering once |
| Text.StripLowerCommute | agent.py:105 | lowering and stripping can be done in either order |
| Text.LowerKeepsSpaceness | agent.py:105 | lowering a character never changes whether it is whitespace |
| Text.StripLeftLower | agent.py:105 | lowering commutes with `lstrip` |
| Text.StripRightLower | agent.py:105 | lowering commutes with `rstrip` |
| Text.Contains | agent.py:109 | Python's `in` on strings: the needle occurs at some offset of the haystack (a definition; `ContainsIffOccurs` states it) |
| Text.ContainsIffOccurs | agent.py:109 | `in` holds exactly when the needle occurs at some offset |
| Text.EmptyContained | agent.py:109 | the empty string is in every string |
| Text.ContainsKeepsChars | agent.py:109 | every character of a contained string is in the containing string |
| Text.ContainsTransitive | agent.py:109 | a part of a part is a part |
| Text.LongerNotContained | agent.py:109 | a string is never in a shorter one |
| Text.ContainedInSuffix | agent.py:139 | a string in the end of a string is in the whole |
| Text.JoinContainsParts | agent.py:139 | every part is in the joined string |
| Text.Regroup | agent.py:139 | concatenation regrouped |
| Text.QuotedContained | agent.py:141 | a string is in any string that quotes it |
| Text.Join | agent.py:139 | joining nothing gives the empty string, and joining one part gives that part |
| Text.JoinAppend | agent.py:139 | joining one more part adds the separator and that part at the end, so the parts appear in order with one separator between neighbours |
| Text.DigitChar | agent.py:43 | a digit character has the value of the digit |
| Text.Decimal | agent.py:43 | `str(n)` is non-empty, all digits, with no leading zero |
| Text.DecimalRoundTrip | agent.py:43 | `str(n)` reads back as n |

## Left out

- The ReAct agent itself, its prompt, its conversation memory and its parse-error handling (agent.py:175-198) are LangChain code that is not part of this model. The agent is a parameter of the session: a function of the inputs sent so far and the new input.
- The Gemini client and its retry settings (agent.py:18-29) are library configuration.
- The Calculator tool (agent.py:33-39) evaluates arbitrary Python with `eval`, so it has no contract to state. It is registered, named and described, but its body is not modelled.
- The Weather tool (agent.py:69-87) is an HTTP request plus field formatting. It is registered, named and described, but its body is not modelled.
- WebSearch.Search: the Wikipedia and DuckDuckGo requests are not sent. Their replies (raised, or status and parsed body) are parameters. Only the JSON fields the code reads are modelled. URL encoding of the query is not modelled.
- WebSearch.Search: a non-string "extract" value is not modelled; the extract is a string or absent. In the code a JSON null extract is written out as "Search result: None".
- WebSearch.DuckDuckGoStage: a non-string "Abstract" or "Text" value, and a `RelatedTopics` that is present but not a list, are not modelled. An absent "Abstract" is modelled as the empty string, which the code treats the same way.
- DateTimeTool.Decide: the clocks (`datetime.now`, `datetime.utcnow`) are parameters, in whole seconds. Microseconds are not shown by the format and are dropped.
- DateTimeTool.Decide: a timezone argument that is not a string is not modelled; the agent passes strings.
- Calendar.Render: the year is written with four digits, as Python documents `%Y`. Some C libraries write years below 1000 with fewer digits; that is not modelled.
- Text.LowerStr: lower-casing and upper-casing are modelled for ASCII letters only. Python also maps other Unicode letters, and some of them to ASCII: `'ſ'.upper()` is `'S'` and `'ı'.upper()` is `'I'`. So the case-insensitivity lemmas `WebSearch.NormalizeIgnoresCaseAndPadding`, `WebSearch.KnowledgeIgnoresCaseAndPadding`, `DateTimeTool.ZoneCaseIgnored` and `Text.LowerOfUpper` hold for ASCII case only. In Python, `get_date_time('eſt')` reports "not supported" while its capitals report EST time. `strip` uses Python's full whitespace set.
- WebSearch.NormalizeIgnoresCaseAndPadding: holds for ASCII upper case only (see `Text.LowerStr` above).
- WebSearch.KnowledgeIgnoresCaseAndPadding: holds for ASCII upper case only (see `Text.LowerStr` above).
- DateTimeTool.ZoneCaseIgnored: holds for ASCII capitals only (see `Text.LowerStr` above).
- Session.RunSession: the prompts and messages printed, the one-second pause before each turn and the ten-second pause after a rate-limit error are not modelled. The rate-limit decision itself is modelled (`Event.Failed.backoff`).
- Session.RunSession: end of input is modelled as the end of the session (`InputExhausted`). In the code, the `EOFError` is caught by the outer handler in `main`, which prints "Failed to initialize agent", and the loop ends. That message is not modelled. Neither is a failure of `create_agent`, nor a keyboard interrupt.
- The knowledge table has nine entries in the code, and the model keeps all nine in their order. The last entry, "monuments in india", is reached only by a longer query that contains its key: `WebSearch.MonumentsEntryShadowed` proves that a query that is part of the key, the key itself included, is answered by one of the first three entries.
