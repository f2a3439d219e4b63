# Plataforma de Estudos — a verified model of its core

Plataforma de Estudos ("ElectroMind") is a study application for electrical
engineering students. It is a single-page React application:

- a dashboard with a chart of per-topic scores;
- a searchable question bank of subjects;
- an archive of past exams from two universities (UFF and Estácio de Sá);
- learning modules whose lessons are generated by a language model;
- an AI tutor chat;
- a quiz screen that asks the model for multiple-choice questions, scores them and updates running statistics.

Two small servers forward chat turns to the Gemini REST API: an edge function
(`api/gemini.js`) and a local Express server (`server.js`).

This project models that core in Dafny, one module per source file:

| module | file | source |
|---|---|---|
| `Js` | js.dfy | the JavaScript built-ins the logic relies on (`trim`, `includes`, `indexOf`, `lastIndexOf`, `substring`, `split`, `join`, default string `sort`, `Math.round` of a ratio, `filter`, decimal rendering of integers, JSON values and truthiness) |
| `Types` | types.dfy | types.ts |
| `MarkdownRenderer` | markdown.dfy | components/MarkdownRenderer.tsx |
| `QuestionMode` | question_mode.dfy | components/QuestionMode.tsx (a class `QuizSession` holding the component's state) |
| `App` | app.dfy | App.tsx (a class `AppShell` holding navigation and statistics state) |
| `GeminiService` | gemini_service.dfy | services/geminiService.ts |
| `LearningMode` | learning_mode.dfy | components/LearningMode.tsx (a class `LessonViewer`) |
| `QuestionBank` | question_bank.dfy | components/QuestionBank.tsx |
| `Constants` | constants.dfy | constants.ts (subject list, exam and module generators, mock data) |
| `ExamArchive` | exam_archive.dfy | components/ExamArchive.tsx |
| `Dashboard` | dashboard.dfy | components/Dashboard.tsx |
| `AiChat` | ai_chat.dfy | components/AIChat.tsx (a class `ChatView`) |
| `GeminiProxy` | api_gemini.dfy | api/gemini.js |
| `LocalServer` | server.dfy | server.js |

Component state that React updates through setters is a class whose methods
change its fields, with `modifies` clauses. Each event handler is one method.
Computations without state (filters, renderers, generators, reply coercion)
are functions, each with lemmas about it.

Some behaviour comes from outside the code and is an explicit input:

- **Language model and network:** each call's outcome is a parameter. This is a `Reply`, an `Upstream` response, or a `fetch` function.
- **`Date.now()`:** an id stamp string.
- **`Math.random()`:** a real number in [0, 1).
- **`toLowerCase`, `JSON.parse`, `JSON.stringify` and `String(error)`:** function parameters whose behaviour the model does not fix.

## Model

| member | source | states |
|---|---|---|
| Js.TrimStart | components/AIChat.tsx:19 | `trimStart` removes exactly the longest whitespace prefix: the result is a suffix, begins with a non-space, and what was dropped is blank |
| Js.TrimEnd | components/MarkdownRenderer.tsx:53 | `trimEnd` removes exactly the longest whitespace suffix |
| Js.Trim | components/MarkdownRenderer.tsx:73 | `trim()` never lengthens the text, and a non-empty result neither starts nor ends with whitespace; TrimEmptyIffBlank adds that it is empty exactly for blank text |
| Js.TrimEmptyIffBlank | components/MarkdownRenderer.tsx:73 | `line.trim() === ''` holds exactly for whitespace-only lines |
| Js.TrimStartAppend | services/geminiService.ts:23 | trimming the start of a concatenation trims the first part, or skips it entirely when it is blank |
| Js.TrimStartAgain | services/geminiService.ts:23 | `trimStart` is idempotent |
| Js.TrimEndAppendBlank | services/geminiService.ts:23 | trailing whitespace does not change `trimEnd` |
| Js.TrimBlankTail | services/geminiService.ts:23 | appending whitespace after a start-trimmed text does not change its trim |
| Js.Truthy | api/gemini.js:46 | a predicate with no contract of its own: JavaScript truthiness of an optional value, where absent, `null`, `false`, `0` and `""` are falsy and arrays and objects are truthy |
| Js.Includes | components/QuestionBank.tsx:13 | a predicate with no contract of its own: `h.includes(n)`, the needle occurring at some position; IncludesAt and MissingCharExcludes state the two directions the screens rely on |
| Js.IncludesAt | components/QuestionBank.tsx:12-13 | `includes` finds a needle wherever it occurs |
| Js.MissingCharExcludes | components/QuestionBank.tsx:19-29 | a needle holding a character the haystack lacks is not included |
| Js.IndexOf | services/geminiService.ts:26 | `indexOf` is -1 exactly when the character is absent, else the first position holding it |
| Js.LastIndexOf | services/geminiService.ts:27 | `lastIndexOf` is -1 exactly when the character is absent, else the last position holding it |
| Js.Substring | components/Dashboard.tsx:97 | `substring` never returns more than the text; in-range bounds give that slice, bounds given in reverse give the slice between them, and bounds covering the text give all of it |
| Js.Split | components/MarkdownRenderer.tsx:71 | `split` on one character gives at least one piece, none holding the separator |
| Js.Join | components/LearningMode.tsx:58 | no contract of its own: the pieces joined with the separator between them, which JoinSplit and SplitJoin prove is the inverse of `split` |
| Js.JoinSplit | components/MarkdownRenderer.tsx:71 | joining the pieces of a split with the separator restores the text |
| Js.SplitJoin | components/LearningMode.tsx:58 | splitting a join of separator-free lines gives those lines back |
| Js.NatToString | constants.ts:134 | the decimal rendering of a count is non-empty, all digits, and one digit exactly below 10 |
| Js.NatToStringInjective | constants.ts:134 | distinct numbers render differently |
| Js.PrefixedNumbersDistinct | constants.ts:143 | ids built as a prefix plus a number are distinct for distinct numbers |
| Js.LessEqTotal | components/QuestionBank.tsx:14 | the default sort order on strings is total |
| Js.LessEqTransitive | components/QuestionBank.tsx:14 | the default sort order is transitive |
| Js.LessEqAntisymmetric | components/QuestionBank.tsx:14 | the default sort order is antisymmetric |
| Js.LessEq | components/QuestionBank.tsx:14 | a predicate with no contract of its own: the default `sort` order, lexicographic by code point, which the three lemmas above prove is a total order |
| Js.Insert | components/QuestionBank.tsx:14 | inserting into a sorted list keeps it sorted and adds exactly that element |
| Js.Sort | components/QuestionBank.tsx:14 | `sort()` returns a sorted permutation of its input |
| Js.SortedPermutationUnique | components/QuestionBank.tsx:14 | two sorted permutations of the same list are equal, so the sorted result is determined |
| Js.RoundDiv | App.tsx:37-39 | `Math.round(n / d)` is the integer nearest to n/d, with halves rounded up |
| Js.RoundDivUnique | App.tsx:37-39 | exactly one integer satisfies that rounding bound |
| Js.RoundDivBounds | App.tsx:39 | rounding a ratio between lo and hi stays between lo and hi |
| Js.RoundDivExact | App.tsx:37 | rounding an exact multiple gives the quotient |
| Js.Filter | components/ExamArchive.tsx:13-17 | `filter` keeps exactly the elements the predicate accepts and nothing more |
| Js.FilterIsSubsequence | components/LearningMode.tsx:12-14 | `filter` keeps the original order |
| Js.FilterKeepsAll | components/LearningMode.tsx:12-14 | a predicate accepting everything keeps the whole list |
| Js.FilterAppend | constants.ts:129-152 | filtering a concatenation filters each part |
| Types.ViewStateHasSevenVariants | types.ts:4-12 | there are exactly seven distinct screens |
| MarkdownRenderer.FindFence | components/MarkdownRenderer.tsx:40 | the lazy ```` ```…``` ```` alternative finds the first closing fence after the start |
| MarkdownRenderer.FindDollars | components/MarkdownRenderer.tsx:40 | the lazy `$$…$$` alternative finds the first closing `$$` |
| MarkdownRenderer.FindInlineClose | components/MarkdownRenderer.tsx:40 | `\$.*?\$` closes at the first `$` on the same line, and finds nothing exactly when every later `$` comes after a line end |
| MarkdownRenderer.InlineAt | components/MarkdownRenderer.tsx:40 | an inline match is at least two characters long and ends inside the text |
| MarkdownRenderer.MatchAt | components/MarkdownRenderer.tsx:40 | the alternation, tried in order, matches at least two characters |
| MarkdownRenderer.MatchIsSpan | components/MarkdownRenderer.tsx:40 | every match is a code fence, a display-math span or an inline-math span |
| MarkdownRenderer.NoSpanWithoutDelimiter | components/MarkdownRenderer.tsx:40 | no match starts at a character other than `$` or a backtick |
| MarkdownRenderer.PiecesFrom | components/MarkdownRenderer.tsx:40 | the left-to-right scan yields at least one piece |
| MarkdownRenderer.Parts | components/MarkdownRenderer.tsx:40 | no contract of its own: the scan from the start of the text; PartsSplit and SplitUnique prove it is the one capturing split, and PartsReconstitute that it loses nothing |
| MarkdownRenderer.PartsSplit | components/MarkdownRenderer.tsx:40 | `Parts` is a split in the declarative sense: plain run, match, plain run, …, with each match the first one after its run |
| MarkdownRenderer.SplitUnique | components/MarkdownRenderer.tsx:40 | there is only one such split, so `Parts` is exactly what the capturing `split` returns |
| MarkdownRenderer.PartsReconstitute | components/MarkdownRenderer.tsx:40 | concatenating the parts restores the content: nothing is lost or duplicated |
| MarkdownRenderer.PartsAlternate | components/MarkdownRenderer.tsx:40 | there is an odd number of parts, and every odd-indexed part is a delimited span |
| MarkdownRenderer.PlainTextIsOnePiece | components/MarkdownRenderer.tsx:40 | text without `$` or a backtick is one plain part |
| MarkdownRenderer.WordPrefix | components/MarkdownRenderer.tsx:47 | `\w*` takes the longest run of word characters |
| MarkdownRenderer.WordPrefixOf | components/MarkdownRenderer.tsx:47 | a word followed by a non-word character is exactly what `\w*` takes |
| MarkdownRenderer.CodeLanguage | components/MarkdownRenderer.tsx:46 | no contract of its own beyond requiring a fence at the start: CodeFenceParts proves it is the word after the fence when a newline follows, and CodeLanguageNeedsNewline that it is "" otherwise |
| MarkdownRenderer.CodeBody | components/MarkdownRenderer.tsx:47-52 | no contract of its own beyond requiring a fence at the start: CodeFenceParts proves it is the trimmed text between the tag line and the closing fence |
| MarkdownRenderer.LineNode | components/MarkdownRenderer.tsx:73-81 | a line gives a line-kind node or none; a heading has level 1 to 3 and holds the rest of the line after its `#`s and space; a paragraph holds the whole line |
| MarkdownRenderer.LineNodes | components/MarkdownRenderer.tsx:71-82 | a line gives at most one node, of a line kind |
| MarkdownRenderer.RenderLines | components/MarkdownRenderer.tsx:71-82 | plain text renders only to headings, rules, list items and paragraphs |
| MarkdownRenderer.RenderPart | components/MarkdownRenderer.tsx:42-86 | a fenced part is one code block, an empty part renders nothing, and plain text gives only line kinds |
| MarkdownRenderer.SpanIsOneNode | components/MarkdownRenderer.tsx:46-67 | every delimited span renders as exactly one code, display-math or inline-math node |
| MarkdownRenderer.RenderPartsAppend | components/MarkdownRenderer.tsx:42 | rendering distributes over concatenation of parts |
| MarkdownRenderer.Render | components/MarkdownRenderer.tsx:37-86 | `renderContent()` of empty content renders nothing; text with no `$` and no backtick renders exactly as its lines do |
| MarkdownRenderer.RenderLinesAppend | components/MarkdownRenderer.tsx:71 | line rendering distributes over concatenation of lines |
| MarkdownRenderer.RenderLinesCount | components/MarkdownRenderer.tsx:71-73 | one node per non-blank line and none per blank line |
| MarkdownRenderer.CodeFenceParts | components/MarkdownRenderer.tsx:46-53 | for ```` ```lang\n body``` ```` the language label is `lang` and the code is the trimmed body |
| MarkdownRenderer.CodeBlockRoundTrip | components/MarkdownRenderer.tsx:46-57 | rendering such a fence gives back the language and the trimmed body |
| MarkdownRenderer.CodeLanguageNeedsNewline | components/MarkdownRenderer.tsx:47 | without a newline right after the word, the language label is empty |
| MarkdownRenderer.DisplayMathRoundTrip | components/MarkdownRenderer.tsx:60-62 | `$$tex$$` renders as display math holding `tex` |
| MarkdownRenderer.InlineMathRoundTrip | components/MarkdownRenderer.tsx:65-67 | `$tex$` renders as inline math holding `tex` unless it also reads as `$$…$$` |
| MarkdownRenderer.BlankLinesVanish | components/MarkdownRenderer.tsx:73 | a line renders nothing exactly when it is whitespace only |
| MarkdownRenderer.HeadingOne | components/MarkdownRenderer.tsx:75 | `# text` is a level-1 heading of `text` |
| MarkdownRenderer.HeadingTwo | components/MarkdownRenderer.tsx:76 | `## text` is a level-2 heading of `text` |
| MarkdownRenderer.HeadingThree | components/MarkdownRenderer.tsx:77 | `### text` is a level-3 heading of `text` |
| MarkdownRenderer.NoHeadingFour | components/MarkdownRenderer.tsx:75-81 | `#### text` is not a heading but a paragraph holding the whole line |
| MarkdownRenderer.RuleLine | components/MarkdownRenderer.tsx:78 | any line starting with `---` is a horizontal rule |
| MarkdownRenderer.ListItemLine | components/MarkdownRenderer.tsx:79 | `- text` is a list item of `text` |
| MarkdownRenderer.OtherLinesAreParagraphs | components/MarkdownRenderer.tsx:81 | every other non-blank line is a paragraph holding the line unchanged |
| MarkdownRenderer.OhmsLawParts | components/MarkdownRenderer.tsx:40 | a leading inline formula yields an empty first part, the formula, then the rest |
| QuestionMode.RequestedCount | components/QuestionMode.tsx:42 | 12 questions are requested in exam mode and 10 otherwise |
| QuestionMode.FinalPercentage | components/QuestionMode.tsx:139 | the final grade is `score / total · 100` rounded to the nearest integer |
| QuestionMode.PercentageInRange | components/QuestionMode.tsx:139 | the grade lies in 0..100; it is 100 when all answers are right and 0 when none are |
| QuestionMode.QuizSession.constructor | components/QuestionMode.tsx:16-24 | a new session is loading, with no questions, no selection and a zero score |
| QuestionMode.QuizSession.Screen | components/QuestionMode.tsx:107-138 | the error screen shows exactly when loading is over and there is no current question |
| QuestionMode.QuizSession.IsCorrect | components/QuestionMode.tsx:69-70 | an answer is correct exactly when a current question exists and the selection is its correct index |
| QuestionMode.QuizSession.Percentage | components/QuestionMode.tsx:139 | the finished screen's grade is a percentage |
| QuestionMode.QuizSession.StartFetch | components/QuestionMode.tsx:30-42 | fetching resets questions, index, score, selection, explanation and the finished flag, and requests `RequestedCount` questions |
| QuestionMode.QuizSession.FinishFetch | components/QuestionMode.tsx:46-57 | the generated questions are stored; an empty batch leads to the error screen, otherwise to the first question |
| QuestionMode.QuizSession.Select | components/QuestionMode.tsx:72-74 | an option is selected only while the question is unanswered; nothing else changes |
| QuestionMode.QuizSession.Submit | components/QuestionMode.tsx:76-83 | without a selection nothing happens; otherwise the question is answered, the score rises by one exactly for a correct answer, and that verdict is reported |
| QuestionMode.QuizSession.Next | components/QuestionMode.tsx:85-94 | before the last question it advances and clears the selection, answer and explanation; on the last it only finishes the quiz |
| QuestionMode.QuizSession.AskAi | components/QuestionMode.tsx:96-102 | asking the tutor passes the current text, options and correct option text, and marks the explanation as loading |
| QuestionMode.QuizSession.ExplanationArrived | components/QuestionMode.tsx:103-104 | the explanation is stored and loading stops |
| QuestionMode.PlayRound | components/QuestionMode.tsx:30-94 | answering every generated question in turn finishes the quiz with the number of right picks as its score, and the mark is `FinalPercentage` of that score over the question count, in 0..100 |
| QuestionMode.CountRight | components/QuestionMode.tsx:79-80 | the right picks among the first n questions are at most n |
| App.UpdateStats | App.tsx:33-47 | one more answer is counted; accuracy becomes the rounded percentage of right answers, recovered from the old accuracy; streak and topics are kept |
| App.CorrectSoFar | App.tsx:37 | the right answers recovered from a percentage accuracy lie between 0 and the answers counted |
| App.UpdateKeepsStatsValid | App.tsx:33-47 | accuracy stays a percentage and topic scores are untouched |
| App.FirstAnswer | App.tsx:35-44 | after a first answer, accuracy is 100 for a right answer and 0 for a wrong one |
| App.RightThenWrong | App.tsx:33-47 | one right then one wrong answer from zero gives 50% |
| App.UpdateAll | App.tsx:33-47 | a sequence of answers adds its length to the count and keeps streak and topics |
| App.UpdateAllKeepsStatsValid | App.tsx:33-47 | any sequence of answers keeps the statistics valid |
| App.AllRightStaysPerfect | App.tsx:33-47 | from a perfect record, right answers keep accuracy at 100 |
| App.QuizTitle | App.tsx:92 | the quiz topic is the selected topic, or "Geral" when there is none |
| App.ExamTopic | App.tsx:66 | an exam's topic is `subject (university)`, with its parts at their positions |
| App.AppShell.constructor | App.tsx:14-27 | the app opens on the dashboard with no topic, no exam mode and a closed sidebar |
| App.AppShell.Page | App.tsx:77-101 | the quiz page shows exactly on the quiz view, with its title and mode; the statistics view shows the dashboard |
| App.AppShell.Navigate | App.tsx:50-57 | navigation sets the view and closes the sidebar; leaving for a non-quiz view clears the topic and exam mode |
| App.AppShell.StartQuiz | App.tsx:59-63 | starting a quiz selects the topic, clears exam mode and opens the quiz page |
| App.AppShell.StartExam | App.tsx:65-69 | starting an exam selects `subject (university)` in exam mode |
| App.AppShell.ExitQuiz | App.tsx:71-75 | exiting returns to the question bank with no topic and no exam mode |
| App.AppShell.OpenSidebar | App.tsx:122 | the menu button opens the sidebar and changes nothing else |
| App.AppShell.CloseSidebar | App.tsx:111 | closing the sidebar changes nothing else |
| App.AppShell.RecordAnswer | App.tsx:33-47 | the statistics become `UpdateStats` of the old ones and stay valid |
| App.StartShownExam | components/ExamArchive.tsx:84 | clicking a listed exam card opens the quiz in exam mode on `subject (university)` of that very exam, which is in the archive and passes the filter |
| App.StartListedSubject | components/QuestionBank.tsx:66 | clicking a listed subject card opens the quiz outside exam mode on the subject string unchanged, titled "Geral" only if it is empty; the subject is in the catalogue and matches the search |
| GeminiService.RemoveTagged | services/geminiService.ts:23 | removing a fence and its following whitespace never lengthens the text |
| GeminiService.RemoveTaggedIdentity | services/geminiService.ts:23 | text without a backtick passes through fence removal unchanged |
| GeminiService.RemoveTaggedPrefix | services/geminiService.ts:23 | a fence-free prefix is kept as is |
| GeminiService.RemoveTaggedClosing | services/geminiService.ts:23 | a closing fence at the end is removed |
| GeminiService.Candidate | services/geminiService.ts:26-31 | without both brackets the cleaned text is kept; the candidate is never longer |
| GeminiService.CandidateIsOuterSpan | services/geminiService.ts:26-31 | with `[` before the last `]`, the candidate runs from the first `[` to the last `]` inclusive |
| GeminiService.CandidateSwapped | services/geminiService.ts:30 | when the last `]` precedes the first `[`, `substring` swaps the bounds and the candidate holds no bracket |
| GeminiService.ParsedReply | services/geminiService.ts:20-39 | the parse of the candidate, or `[]` when parsing fails |
| GeminiService.CleanAndParseJson | services/geminiService.ts:20-39 | the step-by-step cleaning gives exactly `ParsedReply` and never fails |
| GeminiService.FencedJsonCleansAlike | services/geminiService.ts:22-23 | wrapping JSON text in a ```` ```json ```` fence does not change what is parsed |
| GeminiService.Clean | services/geminiService.ts:23 | the cleaned reply is never longer than the reply and is trimmed at both ends |
| GeminiService.OwnFields | services/geminiService.ts:140 | `...q` copies an object's fields, the index keys of an array or a string, and nothing from `null`, numbers or booleans |
| GeminiService.Characters | services/geminiService.ts:140 | a string spreads as its one-character strings, in order |
| GeminiService.IndexedFieldsContent | services/geminiService.ts:140 | the spread of an array-like value has exactly the keys "0" … "n-1", each holding its element |
| GeminiService.IndexKeysDiffer | services/geminiService.ts:140 | index keys of distinct positions differ, so no element is overwritten |
| GeminiService.NormaliseItem | services/geminiService.ts:139-143 | each question keeps the fields its spread copies, gets the new id, and keeps its options only when they are an array; otherwise it gets the four placeholders; no other key appears |
| GeminiService.StringItemSpreadsCharacters | services/geminiService.ts:139-143 | a string item becomes its characters under "0", "1", …, with the new id and the placeholder options |
| GeminiService.ArrayItemSpreadsElements | services/geminiService.ts:139-143 | an array item becomes its elements under "0", "1", …, with the new id and the placeholder options |
| GeminiService.Normalise | services/geminiService.ts:138-143 | the batch fails exactly when an item is `null`; otherwise every item is normalised in place |
| GeminiService.NormalisedIdsDistinct | services/geminiService.ts:141 | the ids of one batch are pairwise distinct |
| GeminiService.GeneratedId | services/geminiService.ts:141 | no contract of its own: `gen-<stamp>-<index>`; NormalisedIdsDistinct proves the ids of one batch differ |
| GeminiService.QuizFromParsed | services/geminiService.ts:138-145 | non-arrays and arrays with `null` give no questions; otherwise one question per item, each with an id and array options |
| GeminiService.QuizFromReply | services/geminiService.ts:134-150 | a failed call gives no questions; a reply is parsed with `"[]"` standing for a missing text |
| GeminiService.QuizText | services/geminiService.ts:134 | `response.text \|\| "[]"` is never empty and keeps a non-empty text |
| GeminiService.EmptyReplyGivesNoQuestions | services/geminiService.ts:134-145 | a reply without text yields no questions |
| GeminiService.DifficultyPhrase | services/geminiService.ts:62 | the conceptual wording is used exactly outside exam mode |
| GeminiService.TextOr | services/geminiService.ts:54-57 | the reply text when non-empty, the fallback when empty, the error text when the call threw |
| GeminiService.ChatAnswer | services/geminiService.ts:51-58 | the chat answer is never empty, and a non-empty reply text is returned unchanged |
| GeminiService.Explanation | services/geminiService.ts:171-173 | the explanation is never empty, and a non-empty reply text is returned unchanged |
| GeminiService.LessonContent | services/geminiService.ts:210-212 | the lesson is never empty, and a non-empty reply text is returned unchanged |
| GeminiService.LessonTopics | services/geminiService.ts:237-240 | the topics are "" exactly when the call failed, and a non-empty reply text is returned unchanged |
| GeminiService.GeneratorsAnswerSomething | services/geminiService.ts:171-173 | chat, explanation and lesson always yield some text; topic extraction yields "" exactly on failure |
| GeminiService.GeneratorsPassTextThrough | services/geminiService.ts:210-212 | a non-empty reply passes through every text generator unchanged |
| GeminiService.LessonExcerpt | services/geminiService.ts:226 | the topic prompt embeds the first 3000 characters of the lesson, or all of it when shorter |
| LearningMode.FilterModules | components/LearningMode.tsx:12-14 | a module is listed exactly when its lowercased title contains the lowercased term |
| LearningMode.FilterModulesKeepsOrder | components/LearningMode.tsx:12-14 | the listed modules keep catalogue order |
| LearningMode.EmptyTermKeepsAll | components/LearningMode.tsx:12-14 | an empty search lists every module |
| LearningMode.ReplaceFirst | components/LearningMode.tsx:59-61 | `replace` with a string pattern at the start removes exactly that prefix |
| LearningMode.LessonNodes | components/LearningMode.tsx:58-63 | one node per line of the lesson, none without a lesson |
| LearningMode.LessonLine | components/LearningMode.tsx:59-63 | no contract of its own: the if-chain over one line; TitleLine, SectionLine, SubsectionLine, BlankLineBreaks and DeeperHeadingsAndItemsAreText state each branch |
| LearningMode.LessonLinesInOrder | components/LearningMode.tsx:58 | a lesson made of n lines renders n nodes, line by line |
| LearningMode.TitleLine | components/LearningMode.tsx:59 | `# text` is a title of `text` |
| LearningMode.SectionLine | components/LearningMode.tsx:60 | `## text` is a section of `text` |
| LearningMode.SubsectionLine | components/LearningMode.tsx:61 | `### text` is a subsection of `text` |
| LearningMode.BlankLineBreaks | components/LearningMode.tsx:62 | a whitespace-only line is a break |
| LearningMode.DeeperHeadingsAndItemsAreText | components/LearningMode.tsx:59-63 | `####` headings and `- ` items are plain text holding the whole line |
| LearningMode.LessonViewer.constructor | components/LearningMode.tsx:8-10 | the viewer starts closed, empty and not loading |
| LearningMode.LessonViewer.ViewerOpen | components/LearningMode.tsx:32 | the lesson view shows exactly for a non-empty selected title |
| LearningMode.LessonViewer.Nodes | components/LearningMode.tsx:32-64 | no lesson line renders while the module list is shown, while loading or without content; otherwise one node per line |
| LearningMode.LessonViewer.Open | components/LearningMode.tsx:16-19 | opening selects the module, drops the old lesson and starts loading |
| LearningMode.LessonViewer.ContentArrived | components/LearningMode.tsx:21-23 | the lesson is stored, loading stops and the selection is kept; it is shown line by line only if the viewer is still open |
| LearningMode.CloseWhileLoading | components/LearningMode.tsx:16-43 | closing during loading leaves the module list on screen; the late lesson is stored but nothing of it is shown |
| LearningMode.LessonViewer.Close | components/LearningMode.tsx:26-29 | closing clears the selection and the lesson |
| QuestionBank.FilterSubjects | components/QuestionBank.tsx:12-14 | the listed subjects are sorted and are a permutation of the matching subjects |
| QuestionBank.Matches | components/QuestionBank.tsx:13 | a predicate with no contract of its own: the lowercased subject includes the lowercased term; ListedIffMatches ties it to the list |
| QuestionBank.ListedIffMatches | components/QuestionBank.tsx:12-14 | a subject is listed exactly when it is in the catalogue and matches the search |
| QuestionBank.ListIsTheSortedMatches | components/QuestionBank.tsx:12-14 | the list equals any sorted permutation of the matching subjects |
| QuestionBank.EmptySearchListsAll | components/QuestionBank.tsx:12-14 | an empty search lists the whole catalogue sorted, and the count shown is its size |
| QuestionBank.SubjectStyle | components/QuestionBank.tsx:17-31 | the card colour is the first category, in the fixed order, whose keyword occurs in the lowercased name |
| QuestionBank.CircuitosDigitaisIsElectrical | components/QuestionBank.tsx:25-28 | "Circuitos Digitais" holds a computing keyword but gets the electrical colour, which is tested first |
| QuestionBank.NoKeywordWithout | components/QuestionBank.tsx:19-29 | a keyword with a letter the name lacks does not match |
| Constants.SubjectsListSize | constants.ts:3-125 | the constant `SubjectsList`, copied entry by entry, lists 122 subjects |
| Constants.SemesterLabels | constants.ts:138 | the periods read "1º Sem" and "2º Sem" and differ |
| Constants.SemestersDistinct | constants.ts:138 | distinct semester numbers give distinct labels |
| Constants.ExamCatalogue | constants.ts:129-152 | two exams per subject |
| Constants.GenerateExams | constants.ts:129-152 | the loop pushes, for subject i, the UFF exam at 2i and the Estácio exam at 2i+1 |
| Constants.PairAt | constants.ts:131-150 | the pair of subject i sits at positions 2i and 2i+1 of every longer prefix of the catalogue |
| Constants.CatalogueLayout | constants.ts:131-150 | every subject's pair sits at its positions |
| Constants.UffExam | constants.ts:133-140 | no contract of its own: the UFF exam pushed for subject i; ExamFields and ExamAt state its fields and position |
| Constants.EstacioExam | constants.ts:142-149 | no contract of its own: the Estácio exam pushed right after it; ExamFields and ExamAt state its fields and position |
| Constants.ExamAt | constants.ts:131-150 | the exam at position k is subject k/2's UFF exam for even k and its Estácio exam for odd k |
| Constants.ExamFields | constants.ts:133-149 | each exam has its subject, alternating universities, years 2020–2023 (UFF) or 2019–2023 (Estácio), and link "#" |
| Constants.SubjectSemestersDiffer | constants.ts:138-147 | the two exams of a subject are from different semesters |
| Constants.ExamIdsDistinct | constants.ts:134-143 | all exam ids are pairwise distinct |
| Constants.ExamIdsDiffer | constants.ts:134-143 | any two positions of the catalogue hold different ids |
| Constants.MockExamsSize | constants.ts:154 | the mock archive holds 244 exams |
| Constants.ProgressFrom | constants.ts:162 | a random progress is between 10 and 89 |
| Constants.CompletedFrom | constants.ts:164 | a random number of completed lessons is between 0 and 4 |
| Constants.ModuleFor | constants.ts:158-165 | a module's id, title and lesson total; every 13th is complete, every other 7th is partly done, the rest untouched |
| Constants.GenerateModules | constants.ts:157-166 | one module per subject, with its id and title, 12–19 lessons, a percentage progress and completed lessons within the total |
| Constants.ModuleIdsDistinct | constants.ts:159 | module ids are pairwise distinct |
| Constants.MockStatsValid | constants.ts:170-181 | in the constant `MockStats`, the accuracy and every topic score are percentages |
| Constants.QuestionBankWellFormed | constants.ts:183-253 | the constant `QuestionBankData` holds five questions, each with four options, a correct index among them and a distinct id |
| ExamArchive.FilterExams | components/ExamArchive.tsx:13-17 | the shown exams come from the archive, match the search, and belong to the chosen university |
| ExamArchive.Shown | components/ExamArchive.tsx:13-16 | a predicate with no contract of its own: the university matches the selector ("TODAS" matching all) and the lowercased subject includes the lowercased term; ShownIff ties it to the list |
| ExamArchive.ShownIff | components/ExamArchive.tsx:13-17 | an exam is shown exactly when it is in the archive, its university passes the filter and its subject matches |
| ExamArchive.FilterExamsKeepsOrder | components/ExamArchive.tsx:13-17 | the shown exams keep archive order |
| ExamArchive.EverythingShownByDefault | components/ExamArchive.tsx:10-17 | with "TODAS" and an empty search the whole archive is shown |
| ExamArchive.UffExams | constants.ts:133-140 | one UFF exam per subject |
| ExamArchive.UffSelectionOfCatalogue | components/ExamArchive.tsx:13-17 | the UFF filter on the generated archive gives exactly the UFF exam of each subject, in order |
| ExamArchive.UffHalfOfPair | components/ExamArchive.tsx:14 | of a subject's pair, only the UFF exam passes the UFF filter |
| Dashboard.ChartData | components/Dashboard.tsx:15-17 | the chart is never empty: the topic scores, or a single "Geral" entry at 0 |
| Dashboard.ChartOfValidStatsIsPercentages | components/Dashboard.tsx:15-17 | valid statistics chart only percentages |
| Dashboard.TickLabel | components/Dashboard.tsx:97 | labels of up to 10 characters are kept; longer ones become their first 10 characters plus "..." |
| Dashboard.TickLabelBounds | components/Dashboard.tsx:97 | a label has at most 13 characters and starts like the value |
| Dashboard.TickLabelIdempotent | components/Dashboard.tsx:97 | shortening a label again changes nothing |
| AiChat.ChatView.constructor | components/AIChat.tsx:7-11 | the chat opens with the tutor's greeting, an empty input and no request pending |
| AiChat.ChatView.Type | components/AIChat.tsx:10 | typing replaces the input only |
| AiChat.ChatView.Send | components/AIChat.tsx:19-22 | a blank input or a pending request is ignored; otherwise the untrimmed input is appended as the user's message, the input is cleared and loading starts |
| AiChat.ChatView.Receive | components/AIChat.tsx:25-29 | the answer, or "Erro ao conectar." on failure, is appended as the model's message and loading stops |
| AiChat.AnswerText | components/AIChat.tsx:25-28 | the model's text, or the connection error |
| AiChat.Exchange | components/AIChat.tsx:18-30 | one send-and-receive appends exactly the user's message and the reply when the input is not blank, and nothing otherwise; the history only grows |
| GeminiProxy.Field | api/gemini.js:42 | reading a field yields a value only from an object that has it |
| GeminiProxy.TurnText | api/gemini.js:49 | `msg.parts?.[0]?.text \|\| msg.text \|\| ""`: the first truthy of the two, else "" |
| GeminiProxy.TurnRole | api/gemini.js:48 | a turn is the model's exactly when its role is "model" |
| GeminiProxy.ToTurn | api/gemini.js:47-50 | mapping a `null` entry throws; any other entry becomes a turn with its role and text |
| GeminiProxy.MapTurns | api/gemini.js:47-50 | the history maps entry by entry, and fails exactly when it holds `null` |
| GeminiProxy.HasHistory | api/gemini.js:46 | a predicate with no contract of its own: `history && Array.isArray(history) && history.length > 0` |
| GeminiProxy.Contents | api/gemini.js:45-54 | building `contents` fails exactly when a usable history holds a `null` entry; otherwise the last turn is the prompt as a user turn |
| GeminiProxy.ContentsWithHistory | api/gemini.js:46-51 | a non-empty history array becomes its turns followed by the prompt as a user turn |
| GeminiProxy.ContentsWithoutHistory | api/gemini.js:52-54 | without a usable history the contents are the prompt alone |
| GeminiProxy.NullEntryThrows | api/gemini.js:47-49 | a `null` history entry makes the request fail |
| GeminiProxy.MessageRoundTrip | api/gemini.js:47-50 | a message written as `{role, text}` maps back to the same role and text |
| GeminiProxy.ConversationRoundTrip | api/gemini.js:45-54 | a whole written conversation maps back turn by turn, followed by the prompt |
| GeminiProxy.ApiKey | api/gemini.js:30-32 | the first non-empty of the two keys; none exactly when both are unset or empty |
| GeminiProxy.ReplyText | api/gemini.js:78 | a reply text is found only inside an object with a `candidates` field; ReplyTextOfCandidate gives the text of the usual shape |
| GeminiProxy.ReplyTextOfCandidate | api/gemini.js:78 | the reply text is the first part of the first candidate |
| GeminiProxy.FromUpstream | api/gemini.js:71-95 | status 200 exactly for an ok reply with data, carrying its text; every failure is a 500: a network failure carries its message, a refusal carries `data.error?.message` or else "Erro na API do Google", and a `null` body fails on the property read |
| GeminiProxy.GoogleRefusalMessage | api/gemini.js:73-74 | a refusal `{"error": {"message": text}}` is answered with that text |
| GeminiProxy.GoogleRefusalWithoutMessage | api/gemini.js:73-74 | a refusal without an `error` field is answered with "Erro na API do Google" |
| GeminiProxy.Handle | api/gemini.js:8-97 | OPTIONS is 200; other non-POST methods are 405; a missing key, a bad body or a `null` entry is a 500; otherwise the Google reply decides; the status is always 200, 405 or 500 |
| LocalServer.AgreesWithProxy | server.js:22-31 | for arrays and short histories the server builds the same contents as the edge function |
| LocalServer.StringHistoryDiverges | server.js:23-24 | a non-empty string history makes the server fail where the edge function ignores it |
| LocalServer.LongHistory | server.js:23 | a predicate with no contract of its own: `history && history.length > 0` over the JSON shapes |
| LocalServer.ServerContents | server.js:22-31 | building `contents` fails exactly when the history passes the guard and is not an array, or holds `null`; otherwise the last turn is the prompt as a user turn |
| LocalServer.LogThrows | server.js:20 | a predicate with no contract of its own: `prompt?.substring(0, 15)` throws, when the prompt is present, not `null` and not a string |
| LocalServer.RouteFromUpstream | server.js:44-53 | 200 exactly for an ok reply with data, carrying its text; a refused request carries the serialized reply |
| LocalServer.SameSuccessAsProxy | server.js:44-48 | the server and the edge function succeed on the same replies with the same body |
| LocalServer.Route | server.js:17-54 | a `null` body, a prompt without `substring`, or a failed history map is a 500; otherwise the Google reply decides; the status is 200 or 500 |

## Left out

- The KaTeX rendering effect of MarkdownRenderer (DOM mutation after render) is not modelled. The model stops at the typed nodes the renderer returns.
- JSX, CSS classes, React keys, icons, `scrollIntoView` and the Sidebar component are presentation only. `vite.config.ts` and `api/chat.js` are not part of this model.
- Reading and writing statistics through `localStorage` is I/O. The app shell takes its initial statistics as a constructor argument.
- The Gemini SDK and `fetch` calls are network I/O. Their outcomes are parameters (`Reply`, `Upstream`, `fetch`), and prompts and request bodies are not built.
- `Date.now()` ids are stamp parameters. The stamps of one exchange are not required to differ.
- `Math.random()` is a parameter: a real in [0, 1). Its products with 80 and 5 are exact reals before `Math.floor`.
- `toLowerCase` and `JSON.parse` are function parameters; Unicode case mapping and the JSON grammar are not modelled. JSON numbers are integers.
- `JSON.stringify` and `String(error)` are function parameters.
- Messages produced by the runtime itself (a TypeError's text) are `ErrorBody(None)`.
- The CORS headers and status texts of both servers are not modelled.
- QuestionMode.QuizSession.FinishFetch: it takes typed `Question` records with an integer `correctAnswerIndex`, while the generator yields JSON objects (GeminiService.QuizFromReply). The step from one to the other is not modelled. The source passes the objects on unchecked, and its spread copies `correctAnswerIndex` as it came. An item whose index is a string such as `"1"`, or is missing, never equals a pick under `===` (components/QuestionMode.tsx:70, 79, 82), so every answer to it is scored wrong. The model assumes every generated item has the shape the request's response schema asks for (services/geminiService.ts:105-125), an integer index among them.
- The `hasFetched` Strict-Mode guard and the asynchronous ordering of React state updates are not modelled. Each handler runs atomically and an awaited result arrives as a separate method call (`FinishFetch`, `ExplanationArrived`, `ContentArrived`, `Receive`).
- Strings are sequences of code points, not UTF-16 units, so `length`, `substring` and the default sort order differ for characters outside the Basic Multilingual Plane.
- Js.RoundDiv: `Math.round` is applied in the source to a binary double, but the model rounds the exact rational. The two differ when the double product falls just below a half. For example, accuracy 29 with 50 answers gives `(29 / 100) * 50` = 14.499999999999998, which rounds to 14, while `RoundDiv(1450, 100)` is 15. Likewise 29 right answers of 200 give 14 in the source and 15 in the model.
- App.UpdateStats: accuracy is rounded exactly, so it can be one point above the source's double-precision result (see Js.RoundDiv).
- App.CorrectSoFar: the recovered count is rounded exactly and can differ by one from the source's double result (see Js.RoundDiv).
- QuestionMode.FinalPercentage: the grade is rounded exactly and can differ by one from the source's double result (see Js.RoundDiv).
- App.UpdateStats: the `isNaN` guard is unreachable because the answer count is at least one after the increment, so the model has no NaN branch.
- LocalServer.LongHistory: a `length` field is compared with 0 only when it is a number or a boolean. A string or an array `length` field (`"2"`, `[1]`) is not coerced to a number, so such a history counts as not long.
- App.AppShell.StartQuiz and App.AppShell.StartExam: QuestionMode keeps its first topic because `hasFetched` blocks a second fetch. The model does not connect the shell to a live session.
- GeminiService.TextOr: the SDK's `response.text` getter is taken as a plain string ("" for a missing text). Its own failures are counted as a failed call.
- AiChat.ChatView.Receive: `sendMessageToGemini` never throws, so the "Erro ao conectar." branch is reachable only through the `answer == None` input.
- LocalServer.Route: `express.json()` answers 400 for a body that is not JSON or whose top level is not an object or array, before the route runs. The model starts at the parsed body, so its `null`-body branch stands for a case that the middleware already refuses.
- GeminiService.GeneratedId: the source calls `Date.now()` once per item, while the model uses one stamp per batch. Ids of one batch stay distinct either way: a stamp holds no `-`, so the part after the last `-` is the item's index.
