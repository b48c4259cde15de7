# Verified model of the report-drafting worker and the collaboration API

Report drafting here means: a worker asks a language model for a section as JSON, rescues that JSON
when it is wrapped in prose or cut off, checks every number in it against the verified findings, and
puts tables and deltas built from those findings onto it. Beside it, an API passes edits between the
people who work on a report. This project models the parts of that system with real state or a hard
law, and proves what they promise.

| file | what it models |
|---|---|
| `JsonSyntax.dfy` | JSON values, their concrete syntax in every layout, a reader and a printer (RFC 8259 sections 2 to 7) |
| `JsonGrammar.dfy` | the spelling of numbers, escapes and repeated names, said by places |
| `JsonScanning.dfy`, `JsonRepair.dfy`, `JsonExtract.dfy` | the two string-aware scanning loops, the repair of a truncated object, the layers of `extract_json` |
| `RepairAnyText.dfy`, `ExtractChoice.dfy` | what the repair and the extraction make of any text, complete, truncated or neither |
| `TrailingCommas.dfy` | what the last of these layers makes of objects with commas before closing brackets |
| `ThinkBlocks.dfy` | removal of reasoning blocks |
| `Numbers.dfy`, `NumberScan.dfy`, `Thousands.dfy`, `FinanceBlock.dfy` | numeric tokens as exact rationals, the scanner for them, thousands separators, the finance block |
| `NumberPlaces.dfy`, `ListMarkers.dfy` | which places of a text hold numbers and list markers, without the scanner |
| `Percentages.dfy`, `Figures.dfy` | percentages of a target and their rounding as relations on rationals, the figures a draft may contain, the figure under each heading of a table |
| `Report.dfy`, `TableScan.dfy`, `CellScan.dfy`, `Grounding.dfy`, `TableLimits.dfy` | findings and table cells, the numbers a built table and each of its cells show, the set of allowed numbers, when exactly a table stays inside it, and requests at which it does not |
| `OutcomeNames.dfy` | which outcome a section title names and a code belongs to, said by places |
| `TextLines.dfy`, `TableProse.dfy`, `TableRows.dfy`, `KeptInOrder.dfy`, `ArtifactBuilder.dfy`, `BuiltArtifacts.dfy`, `ArtifactValidators.dfy`, `CheckedArtifacts.dfy` | lines of content, which tables read as prose, tables, deltas and `attach`, and the validators that check its output |
| `ProviderPacing.dfy`, `ProviderLimiter.dfy` | permits, spacing and cooldown of provider calls as a step system, and the limiter's code, each of whose assignments is shown to be such a step |
| `Collaboration.dfy`, `Membership.dfy`, `TenantIsolation.dfy`, `CollaborationGateway.dfy` | the collaboration gateway as a state machine, who is in a channel after any run, its tenants, and its code |
| `SocketLifetimes.dfy` | sockets that open and close around the verification of their tokens |
| `RateLimiting.dfy` | the sliding-window limiter of the public intake route |
| `GeneratorCache.dfy`, `GeneratorHistory.dfy`, `BackgroundTasks.dfy` | the generator cache, what it answers in terms of its history, and the background task set |
| `Basics.dfy` | shared definitions and facts about sequences |

Code that updates things in place is a class or a method with loops, proved against a function on
values; what the code promises is then proved about that function, over all inputs, all runs or all
reachable states. Where several callers interleave, the steps of `ProviderPacing`, `Collaboration`,
`SocketLifetimes`, `GeneratorCache` and `BackgroundTasks` may come in any order, and the classes are
shown to take only such steps.

Parameters of the model: the class `\w` beyond ASCII (`word`, of which only the ASCII part and "white
space is not in it" are assumed), what `float(str)` accepts (`Env.parse`), the clock (`now`, ticks),
the user a token belongs to (`verified`), the parsed form and size of a socket message, and the
outcome of builds and background tasks. Assumptions: a socket connects once; tenant ids have the
form that `TenantId.create` enforces. `ReconnectBreaks`, `ColonConfuses` and `OwnConfigurationIff`
show what depends on such assumptions.

## Where the code does less than its description says

Each line names the lemma that says when the promise is kept, and a lemma with an input at which it is
not.

- Repair of truncated JSON: with a repeated `content` member the salvaged text can be an earlier
  `content` than the document's own (`RepeatedName`); when it is the document's own is decided by the
  members before and after the last one in which a container closed (`RepairKeepsContentIff`).
- Trailing commas are also taken out of strings: `{"a":"x,]",}` gives "x]" (`CommaInString`), and the
  object comes out as its value exactly when no string has a comma with a closing bracket behind it
  (`LooseObjectExtracted`).
- Reasoning blocks: "Content outside the blocks is preserved verbatim" holds exactly when no opening
  mark stands outside them (`KeptVerbatimIff`); of "<thi<think>x</think>nk>y" nothing is left
  (`MarkPutTogether`).
- Thousands separators: a negative amount never reads back as the number it was. Mostly the digits
  after the first separator are read, without the sign; above -1 the sign alone is lost
  (`ThousandsReadBackIff`, `NegativeReadsTail`, `SignLost`).
- "Grounded by construction": every request's table shows allowed numbers only exactly when in no text
  cell a leading list marker shows a number that is not allowed, and no number behind a pipe leaves
  one (`TextCellIff`, `IndicatorTableGrounded`, `CumulativeTableGrounded`). Indicators named
  "1. Wells" or "|1,234" have ungrounded tables (`ListMarkerUngrounded`, `PipeUngrounded`).
- `attach` is idempotent exactly when no table cell has text behind a line end (`AttachIdempotentIff`,
  `AttachCanChangeAgain`), and its ordinals are consecutive exactly when no kept artifact object is
  listed twice (`AttachThenCheck`, `ListedTwice`).
- Two sections named for different outcomes can still show the same rows, when one of the outcomes has
  no findings (`OutcomesApartIff`, `OutcomesShareRows`); outcome and output sections share the findings
  out only if there are findings of both levels (`LevelsSplitIff`, `LevelsShareRows`).
- The delta check can ask for a delta that the builder does not supply (`DeltaCheckIff`,
  `DeltaCheckCanFail`).
- `user_left` goes to every channel of the tenant, joined or not (`DisconnectReaches`, `UnjoinedTold`).
- A socket that closes while its token is verified stays registered for good (`StaleIff`,
  `StaleForever`). A participant of a channel has a live socket exactly if one of its registered sockets
  did not close first (`ParticipantLiveIff`); after `GhostEvents` one has none (`GhostParticipant`).
- The sliding window of the intake route is open at its start. A window that includes its first instant
  holds at most the maximum and the calls of that instant (`ClosedWindows`), and can hold twice the
  maximum (`ClosedWindowDoubled`).
- A caller can get a generator of another configuration exactly when two configurations share a
  fingerprint (`OwnConfigurationIff`, `SharedGenerator`).

## Model

| member | source | states |
|---|---|---|
| `JsonSyntax.ParseDocumentInverts` | `apps/workers/app/ai_reporter/llm_gateway.py:368-369` | reading the text of any JSON tree, in any layout and spelling of its strings, between any white space, gives that tree back |
| `JsonSyntax.ParseDocumentSound` | `apps/workers/app/ai_reporter/llm_gateway.py:368-369` | what is read is the text of a well-formed tree between white space |
| `JsonSyntax.TextInjective` | `apps/workers/app/ai_reporter/llm_gateway.py:368-369` | a text is the text of at most one tree |
| `JsonSyntax.LoadsCharacterised` | `apps/workers/app/ai_reporter/llm_gateway.py:379-386` | `json.loads`, strict or lenient, succeeds with a value exactly when the text is a tree of that value between white space (for strict, without raw control characters in strings) |
| `JsonSyntax.PrintLoads` | `apps/workers/app/ai_reporter/llm_gateway.py:368-369` | printing a value with its strings escaped and loading it is the identity |
| `JsonSyntax.EscapeDecodes` | `apps/workers/app/ai_reporter/llm_gateway.py:368-369` | escaping a string and decoding its escapes gives the string back |
| `JsonGrammar.NumberIff` | `apps/workers/app/ai_reporter/llm_gateway.py:368-369` | the reader's numbers are a sign or none, an integer without leading zeros, a fraction or none, an exponent or none |
| `JsonGrammar.LookupIff` | `apps/workers/app/ai_reporter/llm_gateway.py:453` | looking a name up gives the value of its last member |
| `JsonGrammar.ShortEscapes` | `apps/workers/app/ai_reporter/llm_gateway.py:368-369` | the character that each short escape stands for |
| `JsonGrammar.HexDigits` | `apps/workers/app/ai_reporter/llm_gateway.py:368-369` | the value of each digit of an escape, in either case |
| `JsonScanning.LevelNode` | `apps/workers/app/ai_reporter/llm_gateway.py:461-484` | the brace scanner is at the depth it started from after any whole value, whatever its strings contain |
| `JsonScanning.LevelNodePrefix` | `apps/workers/app/ai_reporter/llm_gateway.py:461-484` | inside a value it is never below that depth, and inside an object always above it |
| `JsonScanning.TrackNode` | `apps/workers/app/ai_reporter/llm_gateway.py:421-444` | a whole value leaves the repair loop's stack as it was, and a container becomes the new cut |
| `JsonRepair.FindBraceIndex` | `apps/workers/app/ai_reporter/llm_gateway.py:418-420` | the loop finds the first opening brace |
| `JsonRepair.RepairTruncatedJson` | `apps/workers/app/ai_reporter/llm_gateway.py:410-455` | the loop computes the function that the theorems below are about |
| `JsonRepair.CutIsGood` | `apps/workers/app/ai_reporter/llm_gateway.py:413-414` | cutting after the last closed container leaves well-formed items |
| `JsonRepair.CutIsPrefix` | `apps/workers/app/ai_reporter/llm_gateway.py:413-414` | what is left is a structural prefix of the original |
| `JsonRepair.CutKeepsClosed` | `apps/workers/app/ai_reporter/llm_gateway.py:413-414` | every container that had closed is kept, first and in order; if nothing is found, none had closed |
| `JsonRepair.TrackPrefix` | `apps/workers/app/ai_reporter/llm_gateway.py:425-444` | on any prefix of an object's inside, the character loop's best cut with its owed brackets is the text of the structural cut |
| `JsonRepair.CandidateOfPrefix` | `apps/workers/app/ai_reporter/llm_gateway.py:418-448` | for every proper prefix of every object after brace-free prose, the candidate text is the text of the structurally cut object |
| `JsonRepair.RepairOfPrefix` | `apps/workers/app/ai_reporter/llm_gateway.py:410-455` | exactly what the repair returns on every proper prefix of every object |
| `JsonRepair.RepairKeepsStructure` | `apps/workers/app/ai_reporter/llm_gateway.py:413-416` | the result is what the text of the cut object loads as, a structural prefix of the original value, and keeps every inner container that had closed |
| `JsonRepair.RepairKeepsContent` | `apps/workers/app/ai_reporter/llm_gateway.py:414-416` | its `content` is a whole non-blank string of the original, and the original's own if it names `content` once |
| `JsonRepair.CutLength` | `apps/workers/app/ai_reporter/llm_gateway.py:425-444` | the cut keeps exactly the members up to the last one in which a container closed |
| `JsonRepair.RepairKeepsContentIff` | `apps/workers/app/ai_reporter/llm_gateway.py:414-416` | the salvaged `content` is the last one among the members up to that one; it is the original's own exactly when the members after it name no `content` or name the same one last |
| `JsonRepair.RepeatedName` | `apps/workers/app/ai_reporter/llm_gateway.py:445-454` | for objects of the form `{"content":"a","x":[],"content":"b"}` cut before the last brace, the first `content` comes back instead of the last |
| `RepairAnyText.RepairIff` | `apps/workers/app/ai_reporter/llm_gateway.py:410-455` | what the repair returns for any text, by counting brackets outside strings: nothing unless something is open at the end, nothing was closed that was not open and an inner container closed; then what the text up to the last such place, closed again, loads as, if it is an object with content |
| `RepairAnyText.ClosedIsRefused` | `apps/workers/app/ai_reporter/llm_gateway.py:445-446` | with a first brace, and all brackets closed at the end or one that closes nothing, the repair returns nothing |
| `RepairAnyText.CompleteIsRefused` | `apps/workers/app/ai_reporter/llm_gateway.py:445-446` | so for every complete object between prose without braces and text without brackets and quotes |
| `RepairAnyText.OverclosedIsRefused` | `apps/workers/app/ai_reporter/llm_gateway.py:431-437` | and for every object followed by a bracket that closes nothing, whatever comes then |
| `JsonExtract.BalancedJsonBlocks` | `apps/workers/app/ai_reporter/llm_gateway.py:458-485` | the loop computes the blocks that the theorems below are about |
| `JsonExtract.BlocksExact` | `apps/workers/app/ai_reporter/llm_gateway.py:458-485` | for any text, the blocks are exactly the ranges from an opening brace at depth zero to the first return to depth zero, in order and disjoint |
| `JsonExtract.BlockBalanced` | `apps/workers/app/ai_reporter/llm_gateway.py:458-485` | each block starts and ends with its braces, is balanced outside strings, and has no balanced proper prefix |
| `JsonExtract.BlocksOfObject` | `apps/workers/app/ai_reporter/llm_gateway.py:458-485` | an object in text without braces and quotes is the one block found, exactly |
| `JsonExtract.BlocksOfPrefix` | `apps/workers/app/ai_reporter/llm_gateway.py:458-485` | on any proper prefix of the object nothing is found |
| `JsonExtract.ExtractJson` | `apps/workers/app/ai_reporter/llm_gateway.py:368-400` | the layers in order: whole text, each block strictly, leniently and without trailing commas, then the repair |
| `JsonExtract.LoadedIsBalanced` | `apps/workers/app/ai_reporter/llm_gateway.py:368-371` | a text that loads as JSON ends at brace depth zero |
| `JsonExtract.TruncatedReachesRepair` | `apps/workers/app/ai_reporter/llm_gateway.py:375-400` | for a truncated object no earlier layer answers, so the repair's answer is the answer |
| `JsonExtract.ProseIsNoDocument` | `apps/workers/app/ai_reporter/llm_gateway.py:368-371` | prose before an object, free of braces, quotes and opening brackets, cannot make the text a document other than the object |
| `JsonExtract.ExtractObject` | `apps/workers/app/ai_reporter/llm_gateway.py:368-400` | an object in such prose is extracted as its value |
| `ExtractChoice.ExtractIff` | `apps/workers/app/ai_reporter/llm_gateway.py:368-400` | for any text: the document if it is one; nothing without a brace; else the value of the first block that some layer reads, every earlier one being unreadable in all; else what the repair gives |
| `ExtractChoice.FirstObjectAnswers` | `apps/workers/app/ai_reporter/llm_gateway.py:375-378` | an object after such prose is the answer, whatever stands behind it |
| `ExtractChoice.FirstOfTwo` | `apps/workers/app/ai_reporter/llm_gateway.py:375-378` | of two objects the first one is |
| `TrailingCommas.LooseFails` | `apps/workers/app/ai_reporter/llm_gateway.py:379-384` | the reader refuses every object in which some container ends with a comma |
| `TrailingCommas.LooseBlock` | `apps/workers/app/ai_reporter/llm_gateway.py:458-485` | the brace scanner finds such an object in prose as its one block |
| `TrailingCommas.DropNode` | `apps/workers/app/ai_reporter/llm_gateway.py:385` | on such an object the pattern takes out the commas at the ends of containers, and rewrites its strings the same way |
| `TrailingCommas.LooseObjectExtracted` | `apps/workers/app/ai_reporter/llm_gateway.py:368-390` | an object with commas before closing brackets, in prose, is extracted as its value exactly when no string of it has a comma with, after any white space, a closing bracket |
| `TrailingCommas.CommaInString` | `apps/workers/app/ai_reporter/llm_gateway.py:385` | from `{"a":"x,]",}` the string "x]" is extracted |
| `ThinkBlocks.NothingLeft` | `apps/workers/app/ai_reporter/llm_gateway.py:136-150` | for any text no opening mark and no outer white space is left, and a second pass changes nothing |
| `ThinkBlocks.OnlyParts` | `apps/workers/app/ai_reporter/llm_gateway.py:132-145` | every text splits in exactly one way into answers and matched blocks |
| `ThinkBlocks.BlocksGone` | `apps/workers/app/ai_reporter/llm_gateway.py:132-145` | of every text, the substitution leaves exactly what stands outside the matched blocks |
| `ThinkBlocks.KeptVerbatimIff` | `apps/workers/app/ai_reporter/llm_gateway.py:139-141` | for every text, what stands outside the blocks is kept verbatim exactly when no opening mark stands there |
| `ThinkBlocks.StripTells` | `apps/workers/app/ai_reporter/llm_gateway.py:136-150` | what comes out of any text: what stands outside its blocks, up to the first opening mark among that, less the white space at both ends |
| `ThinkBlocks.MarkPutTogether` | `apps/workers/app/ai_reporter/llm_gateway.py:139-150` | of "<thi<think>x</think>nk>y" nothing is kept |
| `Numbers.NormaliseDecides` | `apps/workers/app/ai_reporter/grounding.py:47-55` | two tokens have the same normal form exactly when they denote the same rational |
| `Numbers.NormaliseIdempotent` | `apps/workers/app/ai_reporter/grounding.py:47-55` | a normal form is a token of the same value and its own normal form |
| `Numbers.NormaliseShape` | `apps/workers/app/ai_reporter/grounding.py:47-55` | a normal form has no commas, no needless leading zero and no trailing zero of a fraction |
| `NumberScan.MatchIsLongest` | `apps/workers/app/ai_reporter/grounding.py:28` | the hand-written scanner takes the longest match that the number pattern allows, and finds none only where there is none |
| `NumberScan.ScanTokens` | `apps/workers/app/ai_reporter/grounding.py:89-94` | everything found is a token of the pattern |
| `NumberScan.ScanCut` | `apps/workers/app/ai_reporter/grounding.py:89-94` | a character that neither joins nor forbids a number cuts the search in two independent ones |
| `NumberScan.MarkerDecides` | `apps/workers/app/ai_reporter/grounding.py:44-45` | stripping list markers loses nothing from a line exactly when it has none, and otherwise exactly the marker's number |
| `NumberPlaces.ScanIff` | `apps/workers/app/ai_reporter/grounding.py:28` | the numbers found in any text are, one after the other, the longest match of the pattern at the first place behind the last one where it matches and no word character, hyphen, colon, slash or point stands before |
| `ListMarkers.StripIs` | `apps/workers/app/ai_reporter/grounding.py:44-45` | of any text, over all its lines, exactly the characters of list markers are taken out |
| `ListMarkers.ExtractIff` | `apps/workers/app/ai_reporter/grounding.py:89-94` | so what is extracted from any text are the numbers of the text without those characters |
| `Thousands.ThousandsRoundTrip` | `apps/workers/app/ai_reporter/draft_writer.py:79-85` | a non-negative amount written with separators scans back as one token with the same normal form and value |
| `Thousands.NegativeReadsTail` | `apps/workers/app/ai_reporter/draft_writer.py:79-85` | where the result has a minus sign, only what follows the first separator is read |
| `Thousands.SignLost` | `apps/workers/app/ai_reporter/draft_writer.py:79-85` | where a negative amount loses its sign, the result is one token, but not of the amount's normal form |
| `Thousands.ThousandsReadBackIff` | `apps/workers/app/ai_reporter/draft_writer.py:79-85` | every amount: the result is one token with the amount's normal form exactly when the amount has no minus sign |
| `Thousands.ThousandsShape` | `apps/workers/app/ai_reporter/draft_writer.py:79-85` | every amount comes out as one to three digits, groups of three and the fraction as it was, of the same whole value, with a minus sign exactly if it had one and its whole part is not zero |
| `FinanceBlock.Finance.RewriteRecord` | `apps/workers/app/ai_reporter/draft_writer.py:91-92` | the loop rewrites the money keys of a record and nothing else |
| `FinanceBlock.Finance.RewriteAmounts` | `apps/workers/app/ai_reporter/draft_writer.py:88-95` | the block's own amounts and those of every line are rewritten in place |
| `FinanceBlock.RewriteTwice` | `apps/workers/app/ai_reporter/draft_writer.py:79-95` | rewriting twice is rewriting once |
| `FinanceBlock.MoneyReadsBack` | `apps/workers/app/ai_reporter/draft_writer.py:79-95` | a rewritten non-negative money value reads back as the number it was |
| `Report.ScopedFindings` | `apps/workers/app/ai_reporter/artifact_builder.py:134-157` | a table shows findings of the request only, and none only if there are none |
| `Report.LevelsSplitIff` | `apps/workers/app/ai_reporter/artifact_builder.py:134-157` | an outcome section and an output section of one report, neither named for an outcome that has findings, put each finding in exactly one of their tables exactly when there are findings of both levels |
| `Report.NamedOutcomeShows` | `apps/workers/app/ai_reporter/artifact_builder.py:119-157` | what a section named for an outcome shows: that outcome's findings, or, if it has none, those of outcome level, or all |
| `Report.OutcomesApartIff` | `apps/workers/app/ai_reporter/artifact_builder.py:119-157` | two sections named for different outcomes show no common finding exactly when both outcomes have findings, or one has and a section falling back shows none of them |
| `OutcomeNames.OutcomeNumberIff` | `apps/workers/app/ai_reporter/artifact_builder.py:110-126` | a title is named for the number behind the first free-standing "outcome" that a number follows |
| `OutcomeNames.FirstNumberIff` | `apps/workers/app/ai_reporter/artifact_builder.py:113-116` | a code belongs to the outcome of the first number in it |
| `OutcomeNames.SameOutcomeIff` | `apps/workers/app/ai_reporter/artifact_builder.py:129-130` | two numbers mean the same outcome exactly if they have the same value |
| `OutcomeNames.OutcomeLevelIff` | `apps/workers/app/ai_reporter/artifact_builder.py:107-154` | the levels that count as outcomes, in any case |
| `KeptInOrder.SelectInOrder` | `apps/workers/app/ai_reporter/artifact_builder.py:130-154` | the findings selected are those that pass, in the order of the request, each as often as it is there |
| `TableLimits.OutcomesShareRows` | `apps/workers/app/ai_reporter/artifact_builder.py:119-157` | with one finding of outcome level and no outcome codes, "Outcome 1" and "Outcome 2" show the same row |
| `TableLimits.LevelsShareRows` | `apps/workers/app/ai_reporter/artifact_builder.py:134-157` | so do "Outcomes" and "Outputs" |
| `Grounding.AllowedNumbers` | `apps/workers/app/ai_reporter/grounding.py:135-169` | the loops grow exactly the allowed set |
| `Grounding.TextNumbers` | `apps/workers/app/ai_reporter/grounding.py:138-139` | the first loop collects the normal forms of the numbers in every text value |
| `Grounding.FindingsNumbers` | `apps/workers/app/ai_reporter/grounding.py:141-158` | the second loop adds the rounded values and percentages of every finding |
| `Grounding.UpdatesAllowedExactly` | `apps/workers/app/ai_reporter/grounding.py:161-168` | the third loop's set holds a number exactly when it is a rounded percentage of some update's recorded figure against the target of the last calculable finding of its indicator |
| `Percentages.PercentIff` | `apps/workers/app/ai_reporter/grounding.py:113-117` | there is a percentage exactly if both figures are numbers and the target is not zero, and it is the one number p with p times target = 100 times value |
| `KeptInOrder.NumberOfText` | `apps/workers/app/ai_reporter/grounding.py:97-105` | what number a text value is: that of its characters other than commas, without outer white space |
| `Percentages.RoundNearest` | `apps/workers/app/ai_reporter/grounding.py:108-110` | rounding takes the nearest whole number, of two the even one |
| `Percentages.VariantsIff` | `apps/workers/app/ai_reporter/grounding.py:108-110` | the rounded variants of any number, negative ones included, are the normal forms of the nearest multiples of 1, 1/10 and 1/100 |
| `Figures.FindingNumbersIff` | `apps/workers/app/ai_reporter/grounding.py:141-157` | what a finding adds are the roundings of its four recorded values, of its life-of-project value and of the two percentages, and nothing else |
| `Figures.AllowedIff` | `apps/workers/app/ai_reporter/grounding.py:135-169` | a number is allowed exactly if it is written in a text of the request, or is a rounding of a finding's figure or of an update's percentage |
| `Grounding.UngroundedNumbers` | `apps/workers/app/ai_reporter/grounding.py:172-182` | the loop with its seen set computes the report that the next four lemmas are about |
| `Grounding.UngroundedSound` | `apps/workers/app/ai_reporter/grounding.py:172-182` | only tokens whose normal form is not allowed are reported |
| `Grounding.UngroundedComplete` | `apps/workers/app/ai_reporter/grounding.py:172-182` | every normal form that is not allowed is reported |
| `Grounding.UngroundedOnce` | `apps/workers/app/ai_reporter/grounding.py:172-182` | no normal form is reported twice |
| `KeptInOrder.UngroundedInOrder` | `apps/workers/app/ai_reporter/grounding.py:172-182` | reported are, in order, the first occurrences of the numbers that are not allowed |
| `Grounding.UngroundedNone` | `apps/workers/app/ai_reporter/artifact_validators.py:104-117` | nothing is reported exactly when every number is allowed |
| `Grounding.FixedScanned` | `apps/workers/app/ai_reporter/artifact_builder.py:57-61` | a printed percentage is one token in normal form, or no number at all after a minus sign |
| `TableScan.ExtractTable` | `apps/workers/app/ai_reporter/artifact_builder.py:176-194` | the numbers read from any table are those of its printed cells, cell by cell, whatever the cells contain: neither separators nor line starts join, hide or add one |
| `TableScan.ExtractTableThen` | `apps/workers/app/ai_reporter/artifact_builder.py:286-287` | the numbers of a table followed by other text are the table's and the other text's |
| `CellScan.HiddenNumber` | `apps/workers/app/ai_reporter/grounding.py:28` | a number directly behind a slash is not read; what is read of it is what follows its first comma |
| `CellScan.CellShownIff` | `apps/workers/app/ai_reporter/artifact_builder.py:184` | of any text whose own numbers are in a set, the printed cell's numbers are exactly if a list marker that the table shows is (none, or one behind a line end, is not shown) and what follows the first comma of each number behind a pipe is |
| `Grounding.TextCellIff` | `apps/workers/app/ai_reporter/artifact_builder.py:171-184` | a cell that shows a text of the request, whatever its lines and pipes, holds allowed numbers only exactly when neither its leading list marker nor a pipe does harm |
| `Grounding.PctAllowed` | `apps/workers/app/ai_reporter/artifact_builder.py:57-61` | the derived percent-of-target cell holds allowed numbers only |
| `Grounding.LifePctAllowed` | `apps/workers/app/ai_reporter/artifact_builder.py:94-100` | so does the percent-of-project-target cell |
| `Percentages.PctCellIff` | `apps/workers/app/ai_reporter/artifact_builder.py:57-61` | the cell prints the percentage, rounded to one decimal, with a percent sign exactly if the value is calculable, is no percentage itself and has a percentage; else a dash |
| `Percentages.LifePctCellIff` | `apps/workers/app/ai_reporter/artifact_builder.py:94-100` | the same for the percentage of the project target |
| `Percentages.IsRateIff` | `apps/workers/app/ai_reporter/artifact_builder.py:52-54` | a value is itself a percentage exactly if its type is that word, in any case, or its unit a percent sign, white space around them aside |
| `Percentages.PercentNear` | `apps/workers/app/ai_reporter/artifact_builder.py:61` | read back as a rational, a printed percentage is off by at most half a unit of its last place |
| `Percentages.FiveOfEight` | `apps/workers/app/ai_reporter/artifact_builder.py:57-61` | for 5000 of 8000 the cell is 62.5% |
| `Figures.IndicatorRowShows` | `apps/workers/app/ai_reporter/artifact_builder.py:160-194` | under each heading of the indicator table, and nowhere else, stands what belongs there: code, name, unit, baseline, target, value, earlier value, percentage, cumulative figures, the label of the evaluation, the last named data source |
| `Figures.CumulativeRowShows` | `apps/workers/app/ai_reporter/artifact_builder.py:197-238` | the same for the cumulative table |
| `TableRows.RowReadsBack` | `apps/workers/app/ai_reporter/artifact_builder.py:184` | a printed row, cut at its bars, gives its cells in order |
| `Grounding.TableIff` | `apps/workers/app/ai_reporter/artifact_builder.py:176-194` | a table is grounded exactly when every printed cell holds allowed numbers only |
| `Grounding.IndicatorTableIff` | `apps/workers/app/ai_reporter/artifact_builder.py:160-194` | every request: the indicator table is grounded exactly when its text cells hold allowed numbers only |
| `Grounding.IndicatorTableGrounded` | `apps/workers/app/ai_reporter/artifact_builder.py:160-194` | every request: exactly when in every text cell neither the leading list marker nor a pipe does harm |
| `Grounding.CumulativeTableIff` | `apps/workers/app/ai_reporter/artifact_builder.py:209-238` | every request: the cumulative table is grounded exactly when its text cells hold allowed numbers only |
| `Grounding.CumulativeTableGrounded` | `apps/workers/app/ai_reporter/artifact_builder.py:209-238` | every request: the same for the cumulative table |
| `TableLimits.ListMarkerUngrounded` | `apps/workers/app/ai_reporter/artifact_builder.py:160-194` | an indicator named "1. Wells", with nothing else recorded, has a table with an ungrounded number |
| `TableLimits.PipeUngrounded` | `apps/workers/app/ai_reporter/artifact_builder.py:184` | so has one named 1,234 with a pipe in front: the check reads 234 in the table |
| `TextLines.ProseShape` | `apps/workers/app/ai_reporter/artifact_builder.py:286` | the prose kept is trimmed, broken only by line feeds, and has no line that looks like a table row |
| `TextLines.MergeTwice` | `apps/workers/app/ai_reporter/artifact_builder.py:286-287` | putting a table in front of content twice is doing it once exactly when no line of the table reads as prose |
| `KeptInOrder.ProseTells` | `apps/workers/app/ai_reporter/artifact_builder.py:286` | the prose of any content: its lines (content split at every line end, nothing lost), less those whose first solid character is a bar, in order, joined by line feeds and trimmed |
| `KeptInOrder.IsBarIff` | `apps/workers/app/ai_reporter/artifact_builder.py:286` | a line is dropped exactly if its first character that is not white space is a bar |
| `TableProse.TableLeavesNoProse` | `apps/workers/app/ai_reporter/artifact_builder.py:286-287` | no line of a table reads as prose exactly when no cell has more than white space behind a line end |
| `ArtifactBuilder.IndicatorTable` | `apps/workers/app/ai_reporter/artifact_builder.py:160-194` | the row loop builds the artifact and the markdown of the same cells; there is a table exactly if there are findings |
| `ArtifactBuilder.CumulativeTable` | `apps/workers/app/ai_reporter/artifact_builder.py:209-238` | the same for findings with a cumulative figure |
| `BuiltArtifacts.IndicatorArtifact` | `apps/workers/app/ai_reporter/artifact_builder.py:160-191` | the artifact has, in order, one row for each finding shown, with the cells of the printed table and a reference to the finding's id, or code if it has none |
| `ArtifactBuilder.PeriodDelta` | `apps/workers/app/ai_reporter/artifact_builder.py:251-272` | the loop with its early exits finds the first comparable finding's delta |
| `ArtifactBuilder.DeltaIff` | `apps/workers/app/ai_reporter/artifact_builder.py:251-272` | there is a delta exactly when no finding has a cumulative figure and some finding is comparable; it reports the first one's earlier and present figures and compares them the right way round |
| `BuiltArtifacts.DeltaTells` | `apps/workers/app/ai_reporter/artifact_builder.py:251-272` | there is a delta exactly if no finding has a cumulative figure and some finding's change is known; it names the first such indicator, its two figures as recorded, which way they went, and refers to it |
| `ArtifactBuilder.Renumber` | `apps/workers/app/ai_reporter/artifact_builder.py:300-301` | ordinals written in place: each object ends with its last place in the list |
| `ArtifactBuilder.NumberedIffDistinct` | `apps/workers/app/ai_reporter/artifact_builder.py:300-301` | they count 0, 1, 2, ... exactly when no object is listed twice |
| `ArtifactBuilder.AddTable` | `apps/workers/app/ai_reporter/artifact_builder.py:279-294` | the table a section kind gets, and the content with it in front |
| `ArtifactBuilder.AddDelta` | `apps/workers/app/ai_reporter/artifact_builder.py:295-299` | the delta artifact, for the kinds that carry one |
| `ArtifactBuilder.AttachKinds` | `apps/workers/app/ai_reporter/artifact_builder.py:241-299` | which sections get which table and which a delta, by kind, title and findings |
| `KeptInOrder.KeptViewsInOrder` | `apps/workers/app/ai_reporter/artifact_builder.py:277` | the writer's artifacts that are kept are those of other kinds, in their order |
| `ArtifactBuilder.Attach` | `apps/workers/app/ai_reporter/artifact_builder.py:275-309` | the new section: content, kept artifacts between table and delta, ordinals, delta; artifacts that are dropped stay unchanged |
| `ArtifactValidators.AssertArtifactOrdering` | `apps/workers/app/ai_reporter/artifact_validators.py:360-368` | passes exactly for consecutive ordinals, else reports the first pair that is not |
| `ArtifactValidators.AssertTableCitation` | `apps/workers/app/ai_reporter/artifact_validators.py:120-133` | passes exactly when every table row that shows something has a reference, else reports the first such row of the first such table |
| `ArtifactValidators.AssertChartDataGrounding` | `apps/workers/app/ai_reporter/artifact_validators.py:136-155` | passes exactly when the set is empty or every chart point's normal form is in it, else reports a point that is not |
| `CheckedArtifacts.TablesCitedIff` | `apps/workers/app/ai_reporter/artifact_validators.py:120-133` | what the citation check asks: in tables, every row with a cell that holds text has a reference |
| `CheckedArtifacts.ChartsGroundedIff` | `apps/workers/app/ai_reporter/artifact_validators.py:136-155` | what the chart check asks: of every point of every chart the text's normal form, or the float rounded to six decimals, is in the set; missing points and empty texts aside |
| `ArtifactValidators.AttachedPasses` | `apps/workers/app/ai_reporter/artifact_builder.py:275-309` | after `attach`, whatever the section and request, ordering, citations and charts are in order |
| `ArtifactValidators.AttachThenCheck` | `apps/workers/app/ai_reporter/artifact_validators.py:397-412` | the same for the objects: citation and chart checks pass, and the ordering check passes exactly when no kept artifact is listed twice |
| `ArtifactValidators.ListedTwice` | `apps/workers/app/ai_reporter/artifact_builder.py:300-301` | a section that lists an artifact of the writer's twice is one where it does not |
| `ArtifactValidators.DeltaCheckIff` | `apps/workers/app/ai_reporter/artifact_validators.py:200-210` | when, exactly, the delta check fails after `attach` |
| `ArtifactValidators.DeltaCheckPasses` | `apps/workers/app/ai_reporter/artifact_validators.py:394-403` | under the builder's own condition a delta is supplied and the check never fails |
| `ArtifactValidators.DeltaCheckCanFail` | `apps/workers/app/ai_reporter/artifact_validators.py:394-403` | "12" before and "n/a" now asks for a delta and yields none |
| `ArtifactValidators.AttachTwice` | `apps/workers/app/ai_reporter/artifact_builder.py:275-309` | attaching twice is attaching once exactly when no line of the table reads as prose |
| `ArtifactValidators.AttachIdempotentIff` | `apps/workers/app/ai_reporter/artifact_builder.py:275-309` | attaching twice is attaching once exactly when there is no table or no cell of it has more than white space behind a line end |
| `ArtifactValidators.AttachAgain` | `apps/workers/app/ai_reporter/artifact_builder.py:275-309` | the same on the objects, whose ordinals are written twice: the second result has the first one's value exactly then, and the first result keeps its value |
| `ArtifactValidators.AttachCanChangeAgain` | `apps/workers/app/ai_reporter/artifact_builder.py:275-309` | with an indicator named "a", line feed, "b", attaching again changes every section |
| `ArtifactValidators.AssertNumbersGrounded` | `apps/workers/app/ai_reporter/artifact_validators.py:104-117` | content and answers are checked together; nothing is reported exactly when all their numbers are in the set |
| `ArtifactValidators.CheckedNumbers` | `apps/workers/app/ai_reporter/artifact_validators.py:106` | the checked numbers are those of the content and those of the answers, but the last one of a content that ends in a bare list marker such as "1." |
| `ArtifactValidators.AttachedNumbers` | `apps/workers/app/ai_reporter/artifact_validators.py:106` | the checked numbers of an attached section are those of the table's cells and those of the prose with the answers |
| `ArtifactValidators.AttachAddsNoUngrounded` | `apps/workers/app/ai_reporter/artifact_validators.py:104-117` | after `attach` the number check passes exactly when the cells hold allowed numbers only and the prose with the answers passes; with such cells it reports exactly what it reports for these |
| `ProviderPacing.PermitsStep` | `apps/workers/app/ai_reporter/provider_limiter.py:54-82` | every step keeps free permits plus holders equal to the cap |
| `ProviderPacing.CooldownsStep` | `apps/workers/app/ai_reporter/provider_limiter.py:40-46` | every step keeps recorded cooldowns: every start after a note is at or after its end, the resume time never goes back and is at most 60 seconds ahead |
| `ProviderPacing.GrantedAfterCooldowns` | `apps/workers/app/ai_reporter/provider_limiter.py:64-71` | in every run a start is granted only when every cooldown noted so far is over |
| `ProviderPacing.GrantedIff` | `apps/workers/app/ai_reporter/provider_limiter.py:64-71` | in every run a check grants a start exactly when every noted cooldown is over and the last start, if any, lies the gap back |
| `ProviderPacing.WaitsForLast` | `apps/workers/app/ai_reporter/provider_limiter.py:66-74` | otherwise the caller waits for the last of these to end, and gives up exactly if that is after its deadline |
| `ProviderPacing.WaitsStep` | `apps/workers/app/ai_reporter/provider_limiter.py:60-78` | every step keeps each caller's number of sleeps within its budget in ticks |
| `ProviderPacing.RunsAreSafe` | `apps/workers/app/ai_reporter/provider_limiter.py:34-82` | in every interleaving permits are conserved, starts are spaced, cooldowns are kept, and waits are bounded |
| `ProviderPacing.ResumeNeverBack` | `apps/workers/app/ai_reporter/provider_limiter.py:45-46` | over any run the resume time never moves back |
| `ProviderPacing.StartsInWindow` | `apps/workers/app/ai_reporter/provider_limiter.py:66-69` | any window of length L holds at most L/gap + 1 starts, in every run |
| `ProviderPacing.ReturnsByDeadline` | `apps/workers/app/ai_reporter/provider_limiter.py:54-78` | in every run, whatever others do, a call returns after its deadline by no more than the time it has lost to itself, between its own steps or past the end of a timed wait |
| `ProviderPacing.PunctualReturns` | `apps/workers/app/ai_reporter/provider_limiter.py:54-78` | so where no call loses time every call returns by its deadline |
| `ProviderPacing.Progress` | `apps/workers/app/ai_reporter/provider_limiter.py:61-74` | in every state some caller can take its next step or time can go on |
| `ProviderPacing.AllReturned` | `apps/workers/app/ai_reporter/provider_limiter.py:75-82` | when nobody waits or is in flight, all permits are free |
| `ProviderLimiter.Limiter.Acquire` | `apps/workers/app/ai_reporter/provider_limiter.py:54-78` | the code, among any other callers, ends, and each of its assignments is a step of the model; a refusal or exception holds nothing, a grant starts now, after every cooldown, and moves the next start by the gap; it refuses only if no permit came by the deadline or, at a check, a noted cooldown's end or the last start plus the gap lay beyond the deadline; it is late only by what it lost to itself |
| `ProviderLimiter.Limiter.WaitForStart` | `apps/workers/app/ai_reporter/provider_limiter.py:60-78` | the waiting loop, with its measure deadline minus clock |
| `ProviderLimiter.Limiter.NoteRateLimited` | `apps/workers/app/ai_reporter/provider_limiter.py:40-46` | after a 429 the resume time is at least the wished delay ahead (at most 60 seconds; the default without a wish), no further than that unless it was already, and starts, permits and callers are as they were |
| `ProviderLimiter.Limiter.CooldownRemaining` | `apps/workers/app/ai_reporter/provider_limiter.py:49-51` | what is left of the longest recorded cooldown, at most 60 seconds |
| `ProviderLimiter.Limiter.Release` | `apps/workers/app/ai_reporter/provider_limiter.py:81-82` | the semaphore is never released above its bound, the caller holds nothing any more, every other caller is as it was, and free permits and holders add up to the cap |
| `Collaboration.InvStep` | `apps/api/src/websocket/gateway.ts:51-186` | every step keeps the socket maps inverse to each other, no empty set or channel, and every participant reachable in the channel's tenant |
| `Collaboration.Reachable` | `apps/api/src/websocket/gateway.ts:36-38` | so in every reachable state, where the collection timer therefore removes nothing |
| `Collaboration.NothingToCollect` | `apps/api/src/websocket/gateway.ts:233-242` | the collection timer changes nothing |
| `Collaboration.ReconnectBreaks` | `apps/api/src/websocket/gateway.ts:59-63` | a socket that connects again keeps the maps in order exactly if it is the same user |
| `Collaboration.ExactlyOnce` | `apps/api/src/websocket/gateway.ts:192-207` | a broadcast sends once to every socket of the channel's participants but the excluded user, and to no other |
| `Collaboration.MessageReaches` | `apps/api/src/websocket/gateway.ts:83-142` | whom a message is passed on to, and that dropped messages reach nobody |
| `Collaboration.DisconnectReaches` | `apps/api/src/websocket/gateway.ts:170-186` | whom a user's last disconnect is told to: every remaining channel of the tenant |
| `Collaboration.UnjoinedTold` | `apps/api/src/websocket/gateway.ts:170-186` | a run after which a disconnect is told in a channel that the user never joined |
| `Membership.JoinExact` | `apps/api/src/websocket/gateway.ts:99-111` | after an accepted join the user is in the channel; every other participation and all sockets are as they were |
| `Membership.LeaveExact` | `apps/api/src/websocket/gateway.ts:112-124` | after an accepted leave the user is not in it; all else is as it was, and the channel goes exactly if nobody else was in it |
| `Membership.RelayExact` | `apps/api/src/websocket/gateway.ts:125-142` | other messages change nothing; they are accepted exactly if relayed kinds of a participant |
| `Membership.DisconnectExact` | `apps/api/src/websocket/gateway.ts:67-81` | a disconnect takes a user out of every channel exactly if it was the user's last socket, and nobody else out of any |
| `Membership.WithinIff` | `apps/api/src/websocket/gateway.ts:51-186` | in every run a user is in a channel exactly if it joined and has neither left nor made its last disconnect since |
| `Membership.Announced` | `apps/api/src/websocket/gateway.ts:83-142` | joins are announced as joins, leaves as leaves, edits as they are, once to each socket of every other participant and to nobody else |
| `Membership.RegisteredIff` | `apps/api/src/websocket/gateway.ts:51-81` | in every run a socket is registered for a user exactly if it connected for that user and has not disconnected since |
| `Membership.NotifyReaches` | `apps/api/src/websocket/gateway.ts:209-227` | a notification goes once to every socket registered for the user, and to no other |
| `SocketLifetimes.StaleIff` | `apps/api/src/websocket/register.ts:23-31` | in every run a registered socket is not live exactly if it closed before its token was verified |
| `SocketLifetimes.StaleForever` | `apps/api/src/websocket/register.ts:23-31` | such a socket stays registered for its user through every later run |
| `SocketLifetimes.ParticipantLiveIff` | `apps/api/src/websocket/register.ts:23-31` | in every run a participant of a channel has a registered socket of the channel's tenant, and a live one exactly if one of its registered sockets did not close before its token was verified |
| `SocketLifetimes.ParticipantsLive` | `apps/api/src/websocket/register.ts:23-31` | so if no socket closed first, every participant has a live socket |
| `SocketLifetimes.GhostParticipant` | `apps/api/src/websocket/register.ts:23-31` | a run after which a user is a participant without a live socket |
| `TenantIsolation.OtherStep` | `apps/api/src/websocket/gateway.ts:43-49` | a step by one tenant changes nothing of another's and sends its sockets nothing |
| `TenantIsolation.OwnStep` | `apps/api/src/websocket/gateway.ts:43-49` | a tenant's step reads, changes and sends by that tenant's part of the state alone |
| `TenantIsolation.Isolation` | `apps/api/src/websocket/gateway.ts:35-207` | non-interference over whole runs: leaving out all other tenants' events changes neither a tenant's state nor what its sockets are sent |
| `TenantIsolation.ColonConfuses` | `apps/api/src/websocket/gateway.ts:209-219` | with a colon in a tenant id a notification reaches another tenant's user |
| `CollaborationGateway.Gateway.HandleConnection` | `apps/api/src/websocket/gateway.ts:51-65` | registers exactly the verified user, and nobody without a token; a socket that was registered already leaves the maps consistent exactly if it is the same user's |
| `CollaborationGateway.Gateway.HandleDisconnect` | `apps/api/src/websocket/gateway.ts:67-81` | carries out the model's disconnect step, messages included |
| `CollaborationGateway.Gateway.HandleMessage` | `apps/api/src/websocket/gateway.ts:83-142` | carries out the model's message step and answers exactly the accepted messages |
| `CollaborationGateway.Gateway.RemoveUserFromAllChannels` | `apps/api/src/websocket/gateway.ts:170-186` | the loop leaves every channel of the tenant, deletes those left empty, and tells the others once |
| `CollaborationGateway.Gateway.BroadcastToChannel` | `apps/api/src/websocket/gateway.ts:192-207` | the nested loops send to each socket as often as the participants lead to it |
| `CollaborationGateway.Gateway.JoinChannel` | `apps/api/src/websocket/gateway.ts:144-157` | the channel after a join, new or not |
| `CollaborationGateway.Gateway.LeaveChannel` | `apps/api/src/websocket/gateway.ts:159-168` | the channels after a user leaves one, which goes if it is then empty |
| `CollaborationGateway.Gateway.Notify` | `apps/api/src/websocket/gateway.ts:209-227` | a notification goes to the user's sockets once each |
| `CollaborationGateway.Gateway.OnCollectionTimer` | `apps/api/src/websocket/gateway.ts:233-242` | the collection loop leaves the state as it is |
| `RateLimiting.SameAnswersFromStart` | `apps/api/src/routes/sales.ts:11-40` | under a clock that does not go back, with sweeps anywhere, the limiter answers every call like one that keeps the full history |
| `RateLimiting.SameAnswers` | `apps/api/src/routes/sales.ts:11-40` | the same from any two states that agree from the cutoff on |
| `RateLimiting.WindowsFromStart` | `apps/api/src/routes/sales.ts:28-39` | no window (a, a + length] ever holds more than the maximum of calls let pass, for any key |
| `RateLimiting.ClosedWindows` | `apps/api/src/routes/sales.ts:28-39` | a window [a, a + length] holds at most the maximum and the calls at a, of which there are no more than the maximum |
| `RateLimiting.ClosedWindowDoubled` | `apps/api/src/routes/sales.ts:28-39` | a run in which such a window holds twice the maximum |
| `RateLimiting.PassedIff` | `apps/api/src/routes/sales.ts:28-39` | in every run a call passes exactly when fewer than the maximum of calls with its key passed in the window up to it |
| `RateLimiting.IpRateLimiter.Allow` | `apps/api/src/routes/sales.ts:28-39` | the answer is the full history's: yes exactly when fewer calls with the key than the maximum were let pass in the window up to now |
| `RateLimiting.IpRateLimiter.Sweep` | `apps/api/src/routes/sales.ts:17-25` | the sweep drops only what is no longer needed |
| `GeneratorCache.InvStep` | `packages/infrastructure/src/container.ts:1031-1052` | every step keeps cache entries, pending promises, builds and waiting calls consistent |
| `GeneratorCache.OwnFingerprint` | `packages/infrastructure/src/container.ts:1031-1052` | in every interleaving a caller gets a generator built without failure for its own tenant key and for a configuration with the fingerprint of the one resolved in its own call |
| `GeneratorCache.OwnConfigurationIff` | `packages/infrastructure/src/container.ts:1031-1052` | callers get generators of their own configuration in every run exactly when no two configurations that are ever resolved share a fingerprint |
| `GeneratorCache.OneInFlight` | `packages/infrastructure/src/container.ts:1038-1050` | at most one build per tenant and key is in flight |
| `GeneratorCache.FailedNeverCached` | `packages/infrastructure/src/container.ts:1041-1049` | a failed build never enters the cache |
| `GeneratorCache.SharedGenerator` | `packages/infrastructure/src/container.ts:1031-1052` | a run from the empty cache after which a caller holds the generator of another configuration with the same fingerprint |
| `GeneratorHistory.LookupTells` | `packages/infrastructure/src/container.ts:1031-1051` | in every run a call returns at once exactly when the last build completed for its tenant had its key; else it waits for the build under way for its tenant and key, and starts one exactly when there is none |
| `GeneratorHistory.DeliverTells` | `packages/infrastructure/src/container.ts:1041-1051` | a waiting call gets the generator of its build and throws exactly when that build failed |
| `GeneratorHistory.MarkedIff` | `packages/infrastructure/src/container.ts:1042-1048` | in every run a returned generator is marked as the tenant's own provider exactly if its configuration is the tenant's and its model is not the stub |
| `GeneratorCache.Cache.Look` | `packages/infrastructure/src/container.ts:1035-1051` | the uninterrupted part of a call: cache, then pending promise, then a new build |
| `GeneratorCache.Cache.OnBuilt` | `packages/infrastructure/src/container.ts:1042-1048` | a build's success callback |
| `GeneratorCache.Cache.OnFinally` | `packages/infrastructure/src/container.ts:1049` | a build's final callback |
| `BackgroundTasks.SettledMeansFinished` | `packages/infrastructure/src/container.ts:1421-1423` | when a settle call returns, every task started so far has finished, failed ones and later ones included, and each failure was logged once |
| `BackgroundTasks.RoundsBounded` | `packages/infrastructure/src/container.ts:1422` | a settle call waits no more often than tasks were started |
| `BackgroundTasks.WaitTells` | `packages/infrastructure/src/container.ts:1421-1423` | in every run a settle call waits for exactly the tasks unfinished at its last loop test, returns where there was none, and has waited as often as it went on |
| `BackgroundTasks.BackgroundWork.RunInBackground` | `packages/infrastructure/src/container.ts:1106-1112` | a started task is in the set |
| `BackgroundTasks.BackgroundWork.AllSettled` | `packages/infrastructure/src/container.ts:1422` | after one wait all that was seen in the set is gone, whatever began meanwhile |
| `BackgroundTasks.BackgroundWork.SettleBackgroundWork` | `packages/infrastructure/src/container.ts:1421-1423` | the loop ends if a bounded number of tasks begin, with every task finished |

## Left out

- Stripping of code fences and of outer white space before extraction (line 367 of `llm_gateway.py`): the model of `extract_json` begins after it. Fences inside strings are removed by it too.
- `RecursionError` for deeply nested JSON, a byte order mark, and integers too long for Python to convert.
- JSON numbers are kept as their text; duplicate member names are kept in order and looked up last-first, as a dictionary built by the reader would answer.
- Digits beyond ASCII for `\d` and `int()`; letters beyond ASCII in `lower()`, `upper()` and case-insensitive patterns.
- Binary floating point: numbers are exact, and one rounding, half to even, serves both the percentage cell and the allowed set.
- Grounding.AllowedNumbers: does not add the `date:` entries for ISO dates, because nothing but the blanking of written dates reads them.
- Grounding.UngroundedNumbers: does not blank written dates that match an ISO date of the inputs; for requests without an ISO date there is no such blanking and the model is exact.
- The "every figure restated" rule, the joining of all results by `run_all`, word counts, repetition, banned phrases, workflow words, internal ids and donor voice: lists and scores with little structure.
- `models.py` and `pipeline.py` are not part of this model; field names are taken from their use. The text values of a request are one list, in any order.
- 60/RPM is a whole number of clock ticks; the semaphore's own timeout is taken to start when the deadline is computed.
- ProviderLimiter.Limiter.WaitForStart: places an exception before a check or before a sleep; elsewhere the steps of `ProviderPacing` allow it.
- An exception between the grant of a start and the caller's `release`, and a `release` without a grant.
- Times of messages, the bytes of the serialised payload, and failures inside `socket.send`.
- CollaborationGateway.Gateway.HandleConnection: is one step from the end of the verification; what may happen before that is modelled in `SocketLifetimes`.
- Socket messages whose `channel` is not a string; sets of participants and sockets are unordered.
- The agent-memory setting, which is not in the generator key; how a configuration is resolved and gated.
- GeneratorCache.OwnFingerprint: speaks of the tenant key, so that a tenant whose id is "default" shares entries with calls without a tenant, as in the code.
- BackgroundTasks.BackgroundWork.SettleBackgroundWork: takes a bound on how many tasks begin while it waits, because without one the loop need not end; `SettledMeansFinished` needs no bound.
- Outline, chart suggestion, tagging, template extraction, billing, approval, idempotency middleware, routes and schemas: wiring, or stores that are not shown.
