# Verified model of the shell's small engines

rust-bash is a sandboxed bash interpreter with its own implementations of the usual commands. This
project models the parts of it that are small languages or stream algorithms, in the form in which
the program has them, and proves what they are for:

- **sed**: the virtual machine (`Sed`, `SedMachine`), what every run keeps (`SedRuns`), what limits may
  change and report (`SedLimits`), whole scripts (`SedIdioms`), each command and address in runs over any
  input (`SedPasses`, `SedCommands`, `SedPairs`), labels (`SedLabels`) and the compilation of replacements
  (`SedReplacement`);
- **bc**: the precedence-climbing evaluator (`Bc`, `BcMachine`) against a grammar and a printer (`BcGrammar`,
  `BcAccepted`), a grammar with its operators spelled (`BcSpelled`) and its errors (`BcErrors`);
- **find**: the expression parser (`Find`) against its grammar (`FindPrinter`) and its errors (`FindErrors`);
- **byte strings**: UTF-8 with private-use markers (`Utf8Codec`, `ShellBytes`);
- **diff**: unified hunks (`Diff`, `DiffFormat`) against a patcher (`DiffPatch`, `DiffExact`,
  `DiffIgnore`, `DiffReverse`) and a reader (`DiffText`);
- **join** (`Join`, `JoinSpec`), **fmt** (`Fmt`), **expand/unexpand** (`Tabs`, `TabsSpelled`, `TabsExact`,
  `TabsRuns`), **grep** context (`GrepContext`, `GrepOutput`), **split** (`Split`, `SplitLines`);
- **printf %q** (`PrintfQuote`) against a reader of shell words (`PrintfReads`) and letter by letter
  (`PrintfSpelled`);
- **regular expressions**: basic to extended (`Bre`, `BreExact`);
- **static command analysis** (`Analysis`) against runs of the script (`AnalysisRuns`, `AnalysisExact`,
  `AnalysisCalls`) and by the letters of names (`AnalysisNames`).

Code that changes state step by step is a class or a method with loops, each proved to compute a
function; the theorems are about those functions. Operators, spellings, escapes and tables are written
out a second time in the specifications, so that the theorems fix them and do not only carry them along.
Text is a sequence of Unicode scalar values, and `len()` counts UTF-8 bytes (`Utf8Text`). A regex engine,
the search for an edit script, floating-point values and command lookup are parameters.

Where the code does not keep what it is meant to, the exact condition under which it does is proved:
`\$` in sed replacements; anchors out of place, classes in brackets and non-ASCII in basic expressions;
marked bytes in `%q`; zero-context hunks, empty old files and blank lines ignored inside hunks; tabs
under `unexpand -a`; redirection targets in the analysis; empty or unterminated lines in line-wise
split. The documentation of the analysis
(`src/api.rs:112-117`) lists as limits dynamic names, `eval`, command substitution and aliases, but not
process substitutions used as redirection targets; the code does not walk those either, and the model
follows the code.

`dafny verify dfyconfig.toml` checks everything.

## Model

| member | source | states |
|---|---|---|
| `SedMachine.ExecuteSed` | `src/commands/sed.rs:952-1031` | The loop over input lines writes exactly the text and trips exactly the limit of the abstract run, for every script, input and pair of limits; error text stays empty |
| `SedMachine.SedState.ExecuteCommands` | `src/commands/sed.rs:1034-1082` | One pass over the instructions, with forward and backward branches and nested groups, takes the fields to the state the abstract machine reaches; it ends because each fetch uses up cycle budget |
| `SedMachine.SedState.ExecuteOne` | `src/commands/sed.rs:1137-1352` | A command, groups included, changes the fields and returns the flow as the abstract machine says |
| `SedMachine.SedState.ExecuteSimple` | `src/commands/sed.rs:1146-1342` | Each of the other commands has exactly its effect on pattern space, hold space, flags, queue, line position and output, and no other |
| `SedMachine.SedState.Substitute` | `src/commands/sed.rs:1149-1193` | `s`: all, first or n-th match, the success flag and the `p` print, for any regex engine |
| `SedMachine.SedState.AddressMatches` | `src/commands/sed.rs:1091-1120` | Selection of an instruction and the change of its range latch |
| `SedMachine.SedState.PushOutput` | `src/commands/sed.rs:931-939` | Output grows unless it is already over the cap; then the first trip is recorded and nothing else changes |
| `SedMachine.SedState.PushOutputChar` | `src/commands/sed.rs:941-949` | The same guard for one character |
| `SedMachine.SedState.FinishCycle` | `src/commands/sed.rs:1003-1028` | End of a cycle: automatic print, then the append queue in order |
| `SedMachine.CollectLabels` | `src/commands/sed.rs:887-903` | Labels of the top level map to their instruction; the last of equal names wins |
| `SedRuns.RunStaysInBudget` | `src/commands/sed.rs:1044-1052` | Every run ends with a cycle count of at most `max_cycles + 1`, one counted cycle per fetched instruction; an overrun always quits and reports a limit |
| `SedRuns.RunReadsLinesInOrder` | `src/commands/sed.rs:986-1029` | Whatever the script does with `n`, `N`, branches and groups, input lines are loaded in order and at most once each, and all of them unless the run quits |
| `SedRuns.RunNumbersLines` | `src/commands/sed.rs:1286-1317` | At every fetched instruction the line number is the line index plus one and the last-line flag is true exactly on the last line until input runs out; the position never goes back |
| `SedRuns.RunSelectsRanges` | `src/commands/sed.rs:1096-1117` | Closed form of range latches over a whole run: evaluation i of a range is selected if and only if some earlier or equal evaluation matched the start and no evaluation from it up to i-1 matched the end |
| `SedRuns.OneKeeps` | `src/commands/sed.rs:1054-1058` | Along every run the invariants hold command by command; a command that sets quit or deleted never lets the list go on, so the defensive check there does nothing |
| `SedLimits.LimitsNeverChangeMeaning` | `src/commands/sed.rs:930-1082` | A run that trips no limit is, state for state, the run under any larger limits |
| `SedLimits.CycleLimitIsExact` | `src/commands/sed.rs:1044-1052` | A smaller cycle limit trips if and only if the run under a larger one uses more cycles than it; otherwise the runs are equal |
| `SedLimits.SmallerCapOnlyCutsOutput` | `src/commands/sed.rs:930-949` | At equal cycle limits a smaller output cap changes nothing but the output, which is then a prefix, and only once it is over the cap |
| `SedLimits.RunReports` | `src/commands/sed.rs:930-949` | Every run that exceeds a limit reports it, with the allowed value and the one reached: one cycle more than allowed, or the bytes of an output that is over the cap |
| `SedLimits.CyclesFollow` | `src/commands/sed.rs:924-928` | The first limit tripped is the one reported, whatever the run does after it |
| `SedIdioms.TacReversesInput` | `tests/fixtures/comparison/sed/extra.toml:358-364` | `1!G;h;$p` with `-n` prints every non-empty input last line first, if the cycle limit leaves three fetches a line and the output cap the size of the text |
| `SedIdioms.JoinLinesGathersInput` | `src/commands/sed.rs:1556-1560` | `:a;N;$!ba;s/re/repl/g`, with the labels collected from it, gathers every input of two or more lines through its backward branch and substitutes in the joined text, within the same limits |
| `SedIdioms.EmptyScriptCopies` | `src/commands/sed.rs:960-1031` | With an output cap of at least the size of the input, the empty script copies its input if and only if the input is empty or ends its last line; otherwise it adds the missing newline |
| `SedCommands.SubstituteReplacesFirst` | `src/commands/sed.rs:1183-1191` | In every run with room in both limits, here and in the rows below: `s/re/repl/` prints each line with its first match replaced |
| `SedCommands.SubstituteReplacesAll` | `src/commands/sed.rs:1155-1156` | `s/re/repl/g` prints each line with all matches replaced, also if a number is given |
| `SedCommands.SubstituteReplacesNth` | `src/commands/sed.rs:1157-1182` | `s/re/repl/k` replaces match k alone, counted from 1; a line with fewer matches is printed as it is |
| `SedCommands.SubstitutePrintsChanged` | `src/commands/sed.rs:1186-1190` | `s/re/repl/p` with `-n` prints exactly the lines it changed |
| `SedCommands.SubstituteAllPrintsChanged` | `src/commands/sed.rs:1186-1190` | The same with `g` |
| `SedCommands.SubstituteNthPrintsFound` | `src/commands/sed.rs:1173-1178` | With a number and `-n`, `p` prints exactly the lines that have that many matches, changed or not |
| `SedPairs.NextAppendThenSubstitute` | `src/commands/sed.rs:1311-1328` | `N;s/re/repl/` joins lines two by two and replaces the first match in each pair; an odd last line is printed as it is |
| `SedPairs.NextThenDelete` | `src/commands/sed.rs:1293-1309` | `n;d` prints every other line, from the first |
| `SedPairs.NextThenPrint` | `src/commands/sed.rs:1293-1309` | `n;p` with `-n` prints every other line, from the second |
| `SedCommands.HoldGathersAll` | `src/commands/sed.rs:1265-1280` | `H;$!d;x` prints all lines at once, gathered in the hold space |
| `SedCommands.TestBranchesIfChanged` | `src/commands/sed.rs:1236-1246` | `s/re/repl/;t;s/re2/repl2/` makes the second substitution only in lines that the first left as they were |
| `SedCommands.TestBranchesIfUnchanged` | `src/commands/sed.rs:1248-1258` | With `T` in place of `t`, only in lines that the first changed |
| `SedCommands.TestForgetsEarlierLines` | `src/commands/sed.rs:977-981` | `t;s/re/repl/` never skips: what was changed on an earlier line does not count |
| `SedLabels.BranchLands` | `src/commands/sed.rs:1060-1082` | A branch to a label, in any state of any script: taken, the run goes on at the last label of that name on the top level, or ends the list if there is none; `t` branches after a change, `T` without one, and both forget it |
| `SedCommands.BranchSkipsTheRest` | `src/commands/sed.rs:1231-1234` | `/re/b;d` keeps the lines that match |
| `SedCommands.RangeSelects` | `src/commands/sed.rs:1095-1118` | `first,last p` with `-n` prints the lines from first to last; if last comes before first, all lines from first on, since the end is then never met |
| `SedCommands.StepSelects` | `src/commands/sed.rs:1127-1133` | `first~step p` with `-n` prints the lines first, first + step, first + 2 step and so on, for a step of 0 the first alone |
| `SedCommands.PatternSelects` | `src/commands/sed.rs:1126-1126` | `/re/p` with `-n` prints the lines that match |
| `SedCommands.PatternKeeps` | `src/commands/sed.rs:1060-1063` | `/re/!d` prints the same lines |
| `SedCommands.PatternDeletes` | `src/commands/sed.rs:1194-1197` | `/re/d` prints the others |
| `SedCommands.NumberSelects` | `src/commands/sed.rs:1124-1124` | `kp` with `-n` prints line k |
| `SedCommands.LastSelects` | `src/commands/sed.rs:1125-1125` | `$p` with `-n` prints the last line |
| `SedCommands.QuitStops` | `src/commands/sed.rs:1205-1208` | `kq` prints the first k lines, the whole input if there are fewer |
| `SedCommands.GroupRunsItsCommands` | `src/commands/sed.rs:1343-1350` | `/re/{=;p}` with `-n` prints number and text of the lines that match |
| `SedCommands.ChangeReplaces` | `src/commands/sed.rs:1221-1227` | `c` prints its text in place of every line |
| `SedCommands.InsertPrecedes` | `src/commands/sed.rs:1215-1219` | `i` prints its text before every line |
| `SedCommands.AppendsKeepOrder` | `src/commands/sed.rs:1210-1213` | Two `a` print their texts after every line, in their order |
| `SedCommands.NumberPrecedes` | `src/commands/sed.rs:1287-1291` | `=` prints the line number before every line |
| `SedCommands.TransliterateMaps` | `src/commands/sed.rs:1330-1341` | `y` maps each character by its first place in the source list and keeps the others |
| `SedCommands.ExchangeShifts` | `src/commands/sed.rs:1282-1285` | `x` prints each line one cycle late, after an empty line |
| `SedCommands.HoldThenAppendDoubles` | `src/commands/sed.rs:1260-1280` | `h;G` prints every line twice |
| `SedCommands.HoldIsKept` | `src/commands/sed.rs:1260-1274` | `1h;g` prints the first line in place of every line |
| `SedCommands.CommandsTouchOnly` | `src/commands/sed.rs:1146-1342` | In every state each command changes only the spaces, flag and queue it is for; latches and the cycle count never |
| `SedCommands.CommandsStopOnly` | `src/commands/sed.rs:1146-1342` | Only `n` and `N` move on in the input, only `q` quits, only `d`, `c`, `n` and `N` delete, and seven commands print |
| `SedReplacement.TranslateReplacement` | `src/commands/sed.rs:817-858` | The index loop writes the template that the token-wise definition gives |
| `SedReplacement.TranslationPreservesMeaning` | `src/commands/sed.rs:817-858` | Expanding the template equals interpreting the replacement directly for all captures if and only if no kept `\$` is followed by text the template syntax reads as a group |
| `SedReplacement.TemplateStandsForText` | `src/commands/sed.rs:817-858` | The same against a reading of the replacement letter by letter, with `&`, `\1` to `\9`, `\n`, `\\` and `\&` spelled out: the template expands to the text that is meant, for all captures, if and only if no kept `\$` meets text that reads as a group |
| `SedReplacement.NoDollarEscapeIsSafe` | `src/commands/sed.rs:841-845` | In particular every replacement without `\$` keeps its meaning |
| `SedReplacement.DollarEscapeCanFail` | `src/commands/sed.rs:841-845` | The failing family is not empty: `\$1` is read as group 1 |
| `BcMachine.BcParser.Expr` | `src/commands/utils.rs:1864-1968` | The precedence-climbing loop returns the value, error and position of the recursive definition |
| `BcMachine.BcParser.Unary` | `src/commands/utils.rs:1970-1983` | Signs, to any depth, as defined |
| `BcMachine.BcParser.Primary` | `src/commands/utils.rs:1985-2037` | Parentheses, numbers, names and the parse error with its position in bytes, as defined |
| `BcMachine.BcParser.PeekOp` | `src/commands/utils.rs:1872-1888` | The operator at the next character that is not a space, two-character ones first; the panic where the two bytes would cut a character |
| `BcGrammar.ParsesWhatIsWritten` | `src/commands/utils.rs:1864-2037` | Every form written by the precedence grammar, with any redundant parentheses, signs and spaces, evaluates to the value or the first error of its tree and is read to the end |
| `BcAccepted.AcceptedIsWritten` | `src/commands/utils.rs:1864-2037` | Conversely every text that is read to its end without an error is, up to trailing spaces, such a written form, and the result is the value of its tree |
| `BcSpelled.SpelledIsEvaluated` | `src/commands/utils.rs:1864-2037` | Against a grammar that spells its operators and nests them as equality, comparison, sum, product and power, the last grouping to the right, over signs and parentheses: every phrase evaluates to its value or its first error, to the end |
| `BcSpelled.AcceptedIsSpelled` | `src/commands/utils.rs:1864-2037` | Whatever is read to its end without an error is a phrase of that grammar, and the result its value |
| `BcErrors.ExprIsThere` | `src/commands/utils.rs:1864-2037` | An error is what stands where the parser stops: no operand and the number of bytes before it, a missing parenthesis, a bad number, or a character that the two-byte look would cut |
| `BcGrammar.PrintedTreesEvaluate` | `src/commands/utils.rs:1864-2037` | Printing any tree over the twelve operators with only the parentheses that precedence and associativity require, then evaluating the text, gives the value of the tree or its divide-by-zero error |
| `BcGrammar.ReadExpr` | `src/commands/utils.rs:1864-1900` | In any context where ASCII or the end of the text follows, a written expression is read as a unit and the loop goes on with its value at the operator after it |
| `Find.ParseFindExpr` | `src/commands/exec_cmds.rs:408-462` | Depth options are taken out first, the rest must be one expression read to its end; every error message as in the source |
| `Find.ParseOrExpr` | `src/commands/exec_cmds.rs:465-477` | The loop builds the tree, the position and the errors of the recursive definition |
| `Find.ParseAndExpr` | `src/commands/exec_cmds.rs:479-506` | The same for explicit and implicit conjunction |
| `Find.ParseUnaryExpr` | `src/commands/exec_cmds.rs:508-527` | The same for negation and parentheses |
| `Find.ParsePrimaryExpr` | `src/commands/exec_cmds.rs:530-588` | The same for predicates and for `-exec` up to `;` or `+` |
| `Find.ParseOr` | `src/commands/exec_cmds.rs:465-477` | Every successful parse ends strictly further on and within the arguments |
| `FindPrinter.ParserUndoesWriting` | `src/commands/exec_cmds.rs:408-588` | A line written with any spelling of each operator, any extra parentheses and the depth options in any number anywhere between the words parses to the tree and to the last depths if and only if no `-exec` part can be read as a terminator and no word of the expression is a depth option |
| `FindPrinter.AcceptedIsWritten` | `src/commands/exec_cmds.rs:408-588` | Conversely every argument list that is accepted is a line written like that, for the result it gives |
| `FindErrors.RefusalIsExact` | `src/commands/exec_cmds.rs:408-588` | An argument list is refused with an error if and only if something in it is the reason for that error: the first depth option without a number or with a bad one, else the first place where the written expression breaks off (an end, an unknown word, a predicate without its argument, an `-exec` without a terminator, a parenthesis never closed), else a closing parenthesis that nothing opened |
| `FindPrinter.ParserUndoesPrinter` | `src/commands/exec_cmds.rs:408-588` | Every choice of options, with or without an expression, printed with the fewest parentheses and parsed again, comes back if and only if it is readable in that sense |
| `FindPrinter.RewritingIsStable` | `src/commands/exec_cmds.rs:408-588` | So writing what was parsed in any other way and parsing that changes nothing, for all arguments |
| `ShellBytes.EncodeShellString` | `src/shell_bytes.rs:28-39` | The loop writes marker bytes and UTF-8, character by character |
| `ShellBytes.DecodeShellBytes` | `src/shell_bytes.rs:41-95` | The loop over maximal valid prefixes and error spans decodes like a reader of one character or span at a time: no byte is lost or repeated |
| `ShellBytes.EncodeAfterDecode` | `src/shell_bytes.rs:28-95` | `encode(decode(b)) == b` for a byte string if and only if nowhere in it the three bytes of a character from U+E000 to U+E0FF stand; otherwise bytes are lost |
| `ShellBytes.DecodeAfterEncode` | `src/shell_bytes.rs:28-95` | `decode(encode(s)) == s` if and only if no run of markers in s spells a character; otherwise markers are lost |
| `ShellBytes.MarkerFreeTextSurvives` | `src/shell_bytes.rs:28-95` | Text without markers always survives both |
| `ShellBytes.SpansHoldNoAscii` | `src/shell_bytes.rs:58-87` | An invalid span never holds ASCII, so the pass-through for it never acts |
| `ShellBytes.CarriedByte` | `src/shell_bytes.rs:5-26` | The byte b is carried by U+E000 + b, written and, from 0x80 on, read |
| `Utf8Codec.StepMeaning` | `src/shell_bytes.rs:46-58` | Where a byte string starts with a character that one is read; an error span is never empty and holds only continuation bytes after its first |
| `Utf8Codec.ErrorSpansLongest` | `src/shell_bytes.rs:46-58` | An error spans the longest start of a character that stands there, or one byte; input that ends within a character is truncated, and no other |
| `Utf8Codec.BytesOfCharOf` | `src/shell_bytes.rs:28-39` | Encoding a decoded character gives its bytes back (RFC 3629, sections 3 and 4) |
| `Utf8Codec.CharOfBytesOf` | `src/shell_bytes.rs:28-39` | Decoding an encoded character gives the character back |
| `DiffFormat.PreprocessLines` | `src/commands/diff_cmd.rs:90-123` | Lines, their normalised forms and the map between them |
| `DiffText.SplitIsExact` | `src/commands/diff_cmd.rs:90-96` | The lines are the one division of the text into pieces that end in a newline, but for the last, and hold no other |
| `DiffFormat.PushHunk` | `src/commands/diff_cmd.rs:291-385` | The loops print one hunk: its header and, line by line, its body |
| `DiffFormat.FormatUnifiedDiff` | `src/commands/diff_cmd.rs:276-388` | The whole text is the file header and the hunks of all groups |
| `DiffPatch.HeaderCountsBody` | `src/commands/diff_cmd.rs:303-317` | With or without ignore flags, a header count equals the number of body lines if and only if no dropped blank line lies inside the range |
| `DiffPatch.HeaderGivesPosition` | `src/commands/diff_cmd.rs:298-317` | The header start places the hunk where its group is if and only if the group takes an old line, or appends to a file of one line |
| `DiffPatch.ContextPositions` | `src/commands/diff_cmd.rs:298-317` | With at least one line of context around every change and an old file that is not empty, every group is placed like that |
| `DiffExact.PatchBackIsExact` | `src/commands/diff_cmd.rs:276-388` | For every valid grouped edit script, zero context included, applying the hunks at the positions their headers give to the old lines gives the new lines if and only if every shown line ends in a newline and every hunk whose header is off by one does no harm: inside the file it repeats the line it is put behind, at the end of the file its lines commute with all lines but the first and no hunk reaches beyond that one. A group that spans no old line has an unchanged line behind it, unless it is the last |
| `DiffExact.PatchRestoresNew` | `src/commands/diff_cmd.rs:276-388` | In particular where the headers place all groups: if and only if every shown line ends in a newline |
| `DiffExact.ZeroContextMisplaces` | `src/commands/diff_cmd.rs:298-302` | Any group that spans no old line and starts before the end of the file lands one line too late; the result is the right one if and only if its lines are ended copies of the old line there |
| `DiffExact.EmptyOldFileFails` | `src/commands/diff_cmd.rs:298-302` | Against an empty old file the header names line 1, which does not exist: applying such a hunk always fails |
| `DiffReverse.ReversePatchIsExact` | `src/commands/diff_cmd.rs:303-317` | Backwards: the reversed hunks take the new lines to the old ones if and only if every shown line ends in a newline and the hunks whose new header is off by one do no harm, in the same sense for the mirrored script |
| `DiffPatch.NoFlagsIsPlain` | `src/commands/diff_cmd.rs:97-105` | Without ignore flags the lines are compared as they are |
| `DiffIgnore.IgnoringPatchesAlike` | `src/commands/diff_cmd.rs:276-388` | With or without ignore flags, if the headers place all groups: the patcher puts what the hunks show into the old file if and only if no blank line is dropped inside a hunk and every shown line ends in a newline; and that file, the lines outside hunks as the old file has them, compares equal to the new one under the flags |
| `DiffIgnore.LineByLine` | `src/commands/diff_cmd.rs:90-123` | Where no line is dropped, that file has as many lines as the new one and compares equal to it line by line |
| `DiffText.PrintedDiffPatchesBack` | `src/commands/diff_cmd.rs:276-388` | The same exact condition through the printed text, for labels without a newline: reading the diff from its characters and applying it to the old file gives the new file; both labels are read back |
| `Join.SkipLess` | `src/commands/text.rs:4292-4307` | Skips to the first key that is not less, printing unpaired lines if asked |
| `Join.JoinRun` | `src/commands/text.rs:4309-4321` | Pairs the line with the whole run of equal keys |
| `Join.JoinLine` | `src/commands/text.rs:4289-4329` | One step of the outer loop |
| `Join.JoinFiles` | `src/commands/text.rs:4284-4343` | The merge prints the rows of the event list of the recursive merge |
| `JoinSpec.MergeIsNestedLoop` | `src/commands/text.rs:4284-4343` | On two sorted files the pairs of the merge are those of the nested loop, in its order, duplicates crossed; with `-a` the unpaired lines of a file are each printed once, in order, and no paired one is |
| `JoinSpec.NestedPairsAreAll` | `src/commands/text.rs:4309-4321` | The nested loop yields (i, k) if and only if the keys are equal |
| `JoinSpec.JoinedOnFields` | `src/commands/text.rs:4284-4343` | Two lines are joined if and only if the chosen fields, counted from 1 and empty if missing, are the same text |
| `JoinSpec.UnpairedOnFields` | `src/commands/text.rs:4324-4343` | With `-a` a line is printed by itself if and only if no line of the other file has its field |
| `JoinSpec.RowsReadBack` | `src/commands/text.rs:4309-4329` | Rows without newlines stand on a line each and can be read back |
| `JoinSpec.OutputIsInKeyOrder` | `src/commands/text.rs:4284-4343` | All rows, paired and unpaired, come in key order |
| `TextOrder.LessIsDictionaryOrder` | `src/commands/text.rs:4292-4307` | The order of keys is that of a dictionary: by the first difference, or the shorter first |
| `Fmt.FillParagraph` | `src/commands/text.rs:4446-4462` | The loop prints the lines of the greedy split |
| `Fmt.FillIsOptimal` | `src/commands/text.rs:4446-4462` | No in-order split into lines that fit, or are one word, has fewer lines |
| `Fmt.FillIsSplit` | `src/commands/text.rs:4446-4462` | Words are kept in order, and a line exceeds the width only if it is one word |
| `Fmt.FilledReadsBack` | `src/commands/text.rs:4446-4462` | Divided at newlines and then at spaces, the printed paragraph gives back the lines and their words |
| `Fmt.LineLenIsPrinted` | `src/commands/text.rs:4448-4460` | The running width is the number of bytes printed on the line |
| `Fmt.SuffixNeedsNoMore` | `src/commands/text.rs:4446-4462` | Fewer words never need more lines |
| `Tabs.ParseTabStops` | `src/commands/text.rs:4898-4935` | Parts between commas, trimmed; every error in the order the source checks |
| `Tabs.AcceptedIsValid` | `src/commands/text.rs:4898-4935` | Whatever the text, an accepted specification is a positive width or at least two positive ascending stops |
| `TabsSpelled.AscendingIsAccepted` | `src/commands/text.rs:4898-4935` | Ascending positive numbers are accepted: none as a width of 8, one as a width, more as a list |
| `TabsSpelled.FirstFaultIsReported` | `src/commands/text.rs:4898-4935` | Of any other specification the first part that is no such number is reported: from its first foreign character on, whole if it is too large, as zero, or as not ascending |
| `TabsSpelled.PartsAreTexts` | `src/commands/text.rs:4898-4903` | Parts are the texts between commas without the white space of Unicode around them, empty ones dropped |
| `Numerals.ParsedIsWritten` | `src/commands/text.rs:4917-4919` | A text parses as n if and only if it is an optional plus sign, zeros and the numeral of n, below 2^64 |
| `Tabs.SpecificationsReadBack` | `src/commands/text.rs:4898-4935` | Every such choice below 2^64 can be written as text and is read back as it was |
| `Tabs.NextIsLeast` | `src/commands/text.rs:4950-4976` | For every accepted specification the next stop is the least stop strictly beyond the column, also past the list |
| `Tabs.ExpandLine` | `src/commands/text.rs:4747-4763` | The loop replaces each tab by the spaces up to the next stop |
| `Tabs.UnexpandLine` | `src/commands/text.rs:4978-5052` | Both loops, leading only and `-a`, as defined |
| `TabsExact.ExpandUndoesUnexpand` | `src/commands/text.rs:4978-5052` | At every width, with or without `-a`, expanding the unexpanded line gives the line back if and only if it has no tab |
| `TabsExact.UnexpandKeepsColumns` | `src/commands/text.rs:4979-5007` | Without `-a` the expanded text is unchanged for every line, tabs or not, and the line never grows |
| `TabsRuns.UnexpandAllKeepsColumns` | `src/commands/text.rs:5008-5051` | With `-a` the expanded text is unchanged if and only if every run of blanks leaves in place what follows it: in its last stretch of spaces none becomes a tab, or the first that does stands before a real tab stop, and the stops gained and lost by the stretches before it, each followed by a tab, add up to none |
| `TabsRuns.AlignedTabsKeepStep` | `src/commands/text.rs:5008-5051` | Lines whose tabs all stand one character before a multiple of the width meet this |
| `TabsExact.TabAndSpaceMove` | `src/commands/text.rs:5008-5051` | A tab and a space, at width 2, do not: they become two tabs, and 3 columns become 4 |
| `TabsExact.UnexpandIsShortest` | `src/commands/text.rs:5008-5051` | `-a` prints a shortest of all texts that expand to the line |
| `TabsExact.UnexpandIsNoLonger` | `src/commands/text.rs:5008-5051` | A line without tabs never grows |
| `GrepContext.FindMatches` | `src/commands/text.rs:953-966` | Marks exactly the first `max_count` wanted lines and counts them |
| `GrepContext.MarkContext` | `src/commands/text.rs:968-978` | Marks exactly the lines within `before` and `after` of a marked one |
| `GrepContext.GrepWithContext` | `src/commands/text.rs:942-1008` | The three passes print the entries defined from selection and reach, and return the count |
| `GrepContext.EntriesAreExact` | `src/commands/text.rs:968-1001` | The entries are exactly the lines in reach of a selected line, each once and in order, tagged by whether selected, with a separator exactly between neighbours that are not adjacent |
| `GrepOutput.OutputIsOfShownLines` | `src/commands/text.rs:915-1001` | The text printed is that of the lines within reach of a selected one, in order and each once: name, number and text with `:` or `-` between them, as asked for, and `--` exactly where a line is left out between two |
| `GrepOutput.SelectedIsChosen` | `src/commands/text.rs:953-966` | A line is selected if and only if it matches, or with `-v` does not, and fewer than the maximum do before it |
| `GrepOutput.CountIsChosen` | `src/commands/text.rs:953-966` | The count is the number of such lines, up to the maximum |
| `PrintfQuote.PrintfShellQuote` | `src/commands/text.rs:3651-3752` | The loops write the quoted form as defined, marked bytes included |
| `PrintfQuote.PrintfShellQuoteChar` | `src/commands/text.rs:3754-3769` | Each character in its `$'` form |
| `PrintfReads.QuotedReads` | `src/commands/text.rs:3651-3769` | Every quoted text reads as exactly one shell word |
| `PrintfReads.QuotingIsUndone` | `src/commands/text.rs:3651-3769` | For text without markers that word is the text (POSIX.1-2024 Shell Command Language, section 2.2) |
| `PrintfSpelled.PlainTextIsSlashed` | `src/commands/text.rs:3734-3752` | Text without control characters and markers: letters, digits, eleven marks and what is not ASCII stay, everything else gets a backslash; the text is unchanged if and only if nothing does |
| `PrintfSpelled.ControlTextIsDollarQuoted` | `src/commands/text.rs:3656-3769` | Text with a control character and without markers is written in `$'...'`, with the escapes spelled out |
| `PrintfSpelled.CarriedTextIsBare` | `src/commands/text.rs:3715-3731` | A character that is not ASCII, held as markers, is written as it is, without quotes |
| `PrintfSpelled.CarriedByteIs` | `src/commands/text.rs:3666-3731` | How each single marked byte is written, for all 256 |
| `PrintfReads.QuotingKeepsBytes` | `src/commands/text.rs:3666-3712` | For every text the word stands for the same bytes if and only if each window of marked bytes that decodes holds one character outside the marker block |
| `PrintfReads.ExactIfClear` | `src/commands/text.rs:3683-3701` | That condition in closed form, on the bytes: no two whole characters closer together than a window reaches, and nowhere the bytes of a character of the marker block |
| `PrintfReads.SecondCharacterIsLost` | `src/commands/text.rs:3683-3701` | Of two adjacent two-byte characters held as markers the word keeps the first alone |
| `Bre.BreToEre` | `src/commands/regex_util.rs:17-82` | The byte loop writes the rewriting defined step by step, on the bytes taken as characters |
| `BreExact.TranslationKeepsTokens` | `src/commands/regex_util.rs:17-82` | For every pattern, the output lexed as an extended expression has the tokens of the input lexed as a basic one if and only if the pattern is ASCII, every `^`, `$` and `*` stands where it is an operator, and no token is met in a state of the scan that rewrites it (POSIX.1-2017 XBD, sections 9.3 and 9.4) |
| `BreExact.WithoutClassesFits` | `src/commands/regex_util.rs:23-51` | The third condition holds of every pattern without classes inside brackets, closed or not |
| `BreExact.NamedClassFits` | `src/commands/regex_util.rs:24-31` | A bracket that is one named class is copied, and the scan is outside again after it |
| `BreExact.MemberAfterClassBreaks` | `src/commands/regex_util.rs:24-31` | A special member after a class is escaped and the tokens differ |
| `Analysis.CollectCommands` | `src/interpreter/analysis.rs:23-29` | The recursive walk collects the names of the traversal into one list each |
| `Analysis.CollectedCommands.CollectList` | `src/interpreter/analysis.rs:49-61` | Adds the mentions of a list in traversal order |
| `Analysis.CollectedCommands.CollectCommand` | `src/interpreter/analysis.rs:69-82` | Adds those of a command; a function adds its name, then its body |
| `Analysis.CollectedCommands.CollectSimpleCommand` | `src/interpreter/analysis.rs:84-94` | Adds the name if it is a plain literal, then its process substitutions |
| `Analysis.CollectedCommands.CollectCompoundCommand` | `src/interpreter/analysis.rs:107-144` | Adds those of a compound command, branch by branch |
| `Analysis.AnalyzeCommands` | `src/api.rs:118-135` | Returns the collected commands and those that neither resolve nor are defined by the script |
| `AnalysisRuns.CollectsInFirstOrder` | `src/interpreter/analysis.rs:31-35` | Both lists hold each plain name that is mentioned once, in the order of first mention |
| `AnalysisNames.LiteralNamesAreReported` | `src/interpreter/analysis.rs:36-47` | Reported are exactly the words of ASCII letters, digits and `_ - . : % @ +` that stand as command names anywhere in the script but in targets of redirections, function bodies and dead code included; function names alike |
| `AnalysisNames.UnknownNamesAreUnresolved` | `src/api.rs:107-129` | Unresolved are exactly those of them that the instance does not know and that no function in the script defines |
| `AnalysisRuns.RunKeepsInv` | `src/interpreter/walker.rs:424-990` | Along every run, of any length, pending work, defined functions, entered bodies and dispatched names all come from the script, and what is pending or dispatched from its top level or a body that was entered |
| `AnalysisExact.RunsOnlyMention` | `src/interpreter/walker.rs:3699-3806` | What a run dispatches itself, not through a command that runs commands, are plain names that the script mentions outside dead code, and it misses only those that do not resolve |
| `AnalysisExact.AnalysisCoversRuns` | `src/interpreter/analysis.rs:7-29` | If no name is hidden in redirection targets: every plain name that any run dispatches itself, not through a command that runs commands, is reported, and every miss among them is unresolved or a function the script defines |
| `AnalysisExact.DispatchIsExact` | `src/interpreter/walker.rs:3699-3806` | For every script some run dispatches a name if and only if it stands, outside dead code, in the main part or in the body of a function that some run enters |
| `AnalysisExact.AnalysisIsExact` | `src/api.rs:118-135` | For every script the report covers all runs if and only if every plain name in the main part or in a function body that can be entered, redirection targets included and dead code not, is collected; each reported, undefined and unresolved name in code that can be entered is missed by some run, without dropping any work |
| `AnalysisExact.WithoutFunctions` | `src/api.rs:118-135` | For scripts without functions the report covers all runs if and only if no name stands only in redirection targets, and each reported name is dispatched, or missed if unresolved, by some run if and only if it does not stand in dead code only |
| `AnalysisCalls.DispatchFollowsCalls` | `src/interpreter/walker.rs:3699-3806` | For scripts that define functions on lines of their own, in any order, read off the text alone: a run dispatches a name if and only if some line leads to it by a path of calls through the functions defined before that line; with dropped work too, if no function is defined twice |
| `AnalysisCalls.MissesFollowCalls` | `src/interpreter/walker.rs:3699-3806` | A run misses a name if and only if some line leads to it before it is defined and it does not resolve |
| `AnalysisCalls.ReportFollowsCalls` | `src/api.rs:118-135` | For such scripts the reported commands cover all runs if and only if every name that calls lead to is collected, and the reported unresolved ones cover all misses if and only if every missed name is collected and nowhere defined |
| `AnalysisExact.OwnCanRun` | `src/interpreter/walker.rs:1731-2330` | Every name that stands outside function bodies and dead code can be dispatched |
| `AnalysisExact.EnteredCanRun` | `src/interpreter/walker.rs:1731-2330` | Every name in a body that some run enters can be dispatched, unless it stands in dead code |
| `AnalysisExact.RedirectTargetsAreHidden` | `src/interpreter/analysis.rs:84-94` | `outer < <(inner)` misses `inner` at run time and reports it nowhere |
| `Split.SplitSuffix` | `src/commands/file_ops.rs:1409-1423` | The loop writes the base-26 suffix; exhaustion and overflow of the power are told apart |
| `Split.OverflowIsPastThirteen` | `src/commands/file_ops.rs:1410-1410` | The power fits the machine word if and only if there are at most 13 letters |
| `Split.LettersInOrder` | `src/commands/file_ops.rs:1409-1423` | Suffixes of one length are strictly increasing in byte order, so no two are equal |
| `Split.ChunksFlatten` | `src/commands/file_ops.rs:1347-1355` | The chunks are the data, each of the given size but the last, and none empty |
| `Split.WriteChunks` | `src/commands/file_ops.rs:1379-1406` | The pieces go to the files named by their suffixes, up to the first suffix that does not exist |
| `Split.SplitBytes` | `src/commands/file_ops.rs:1347-1406` | `-b`: a count of 0 is refused before anything is written; otherwise the chunks are written as above |
| `Split.SplitThenCat` | `src/commands/file_ops.rs:1347-1399` | Concatenating the written files in the order of their names, however that order is found, gives the data back if and only if the suffixes sufficed |
| `SplitLines.LinePieces` | `src/commands/file_ops.rs:1357-1377` | Line mode: a count of 0 is refused; otherwise groups of lines joined, with a final newline unless empty |
| `SplitLines.LinesRebuild` | `src/commands/file_ops.rs:1365-1377` | Reading lines drops the newlines and at most one carriage return before each, and nothing else: with those put back the lines are the text |
| `SplitLines.LineSplitThenCat` | `src/commands/file_ops.rs:1365-1377` | The pieces add up to the text if and only if it ends its last line, has no carriage return before a newline, and no group of lines is one empty line |

## Left out

- Regular-expression matching: an uninterpreted deterministic engine for matching, replacing and finding.
- The search for an edit script and its grouping (`TextDiff`, `grouped_ops`): any grouped edit script that is valid for the two files is accepted.
- Floating-point values in bc: an arbitrary value type with arbitrary operations and a zero test for division; `scale` is a variable of the environment.
- sed's labels inside groups and latches keyed by position inside a group follow the code; the closed form of ranges is stated per latch key, as the code evaluates it.
- sed's script parser, in-place editing and file handling.
- diff's normal and context formats.
- join's `-o` formats and separators: a row is printed by an arbitrary function of its event; option and input handling.
- fmt's `-s` mode, paragraph splitting and word splitting: a paragraph is its sequence of words.
- unexpand with a list of stops: the code falls back to a width of 8, so only widths occur.
- grep's other output modes; the sum of line index and `after` is not limited to the machine word.
- Split.SplitSuffix: from 14 letters on the power overflows the machine word; this is an outcome of its own, and the wrapped value of an unchecked build is not followed.
- split: errors of writing files and the decoding of invalid UTF-8 in line mode.
- Contents of intervals and back-references in basic expressions are tokens character by character.
- AnalysisCalls.DispatchFollowsCalls: a function defined inside a compound command or another function is not covered; which bodies can be entered is then stated by runs (`AnalysisExact.DispatchIsExact`).
- AnalysisExact.AnalysisCoversRuns: what `xargs`, `find -exec`, `env` and `timeout` are given to run is in no run of the model, here or in the other theorems about runs; the analysis does not report it (`xargs nosuch` misses `nosuch`).
- DiffIgnore.IgnoringPatchesAlike: groups that the headers do not place are covered without flags only (`DiffExact.PatchBackIsExact`).
- In runs of a script: `eval`, command substitution inside words, aliases, traps and functions already on the instance are not entered; a definition made in a subshell stays visible, which only adds runs.
- Redirections of compound commands: a process substitution there is an error at run time, and neither walked nor run.
- `AnalyzeCommands` starts from the syntax tree; brush-parser is not part of this model.
- PrintfReads.QuotedReads: the reader leaves escapes of `$'...'` that the code never writes (hexadecimal, Unicode, control) without a value.
- The rest of the shell: the interpreter proper, the virtual file system, the other commands, and argument parsing.
