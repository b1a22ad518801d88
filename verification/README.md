# Outright: verified models of its algorithms and protocols

Outright is a local workspace for coding agents. This project models the parts
of it that make checkable promises, and proves those promises for every input,
every run and every interleaving. `dafny verify dfyconfig.toml` checks all of it.

## What is modelled

**Saved terminals** (`src/lib/terminal-exit-state.js`). A saved session's output
is rewritten before it is parsed again and read back.

- `VtScanner`, `VtItems`, `VtTokens`, `VtPieces`, `VtOpen`, `VtGrammar`: the VT500
  sequence scanner (control functions: sections 5.3 and 5.4 of ECMA-48), how outputs
  join, that a sequence cut out of an output still reads as itself, what more text
  does to a sequence that was left unfinished, and the grammar of sequences, told
  from their characters alone.
- `RepeatScreen`, `ScreenCounts`: an autowrap screen, why a huge repeat (REP,
  section 8.3.103 of ECMA-48) may be cut by whole periods, and why the count of a
  scroll, an insertion, a deletion or a tab may be cut to the screen's size.
- `SavedMeaning`, `SavedSegments`, `SavedShorts`, `SavedRewriter`, `RewriteChoices`: the
  rewriter as a small compiler. What an output does is a list of effects, repeats
  written out; the rewritten text, scanned again with its hooks read as periods, has
  the same list. What is written for each sequence, and what it does, is told from its
  own characters as well.
- `SavedLimits`, `SavedStates`, `EchoExample`: exactly which outputs the rewriting
  keeps, told from the output alone.
- `LeftOutRows`, `SavedTerminal`, `SavedOutput`, `SavedRows`, `RowBudget`: the
  terminal that trims to its budget and records what shortened repeats left out, and
  the reading that puts those rows back. `OneRowScreens`: exactly when what is read
  back is right on one row.
- `SavedPlay`: both together. What is rewritten, run and read back is what the
  output shows when every effect is performed in full.
- `SavedPages`: the pages the rows are drawn in.

**Ordering protocols.** `Transcript` joins a loaded conversation page with the
events that arrived meanwhile. `LifecycleStates` and `LifecycleOutput` merge
worktree states and streamed output from events and snapshots, with the page's
updates run at later renders. `CommandFence` stops commands to terminals whose
owner is unverified.

**Native supervisors.** `BrokerStatus` and `DetachWindow`: the timed window before
an abandoned terminal is ended. `ProcessTree`: when an empty tree may be reported.
`LaunchFile` and `LaunchClaim`: the private launch file and the one start that may
run it. `ArgumentQuoting`, `ProgramQuotes` and `RuntimeNames`: the Windows command
line and how CommandLineToArgvW and the C runtime read it back.

**Panes and Find.** `PaneLayout`, `PaneRepair`, `PaneRects`: the split tree, its
repair and its rectangles. `TerminalFind`, `MatchGeometry`: the bounded backwards
search and the cells of a match.

`Basics`, `Arithmetic` and `Decimal` hold shared types and facts about numbers.

## Where the code keeps less than it says

Four promises hold under a condition; each has a lemma that shows where it fails.

- Transcript (`src/recovery-policy.js:87-90` says that a late response cannot roll
  back a checkpoint). A reload of the open conversation starts its replay from
  cursors that already counted a checkpoint buffered during that load
  (`src/App.jsx:627`, recorded at `src/App.jsx:815`). The replay then skips that
  checkpoint as stale and the page goes back to the older body without the text in
  between, until the next checkpoint. `Transcript.RolledBack` is such a load.
  `Transcript.WholeExactlyWhen` gives the exact condition, on what the page holds
  when it replays: a newer checkpoint was buffered too, or no buffered delta between
  the loaded checkpoint and the kept cursor carries text; and no delta that no
  checkpoint covers, and that came before the last event which clears the live text,
  carries text. An answer of another run on the loaded page is such an event, although
  a newer live tail is not to be erased (`Transcript.ErasedByOther`).
- Rewriting. A scrollback erase that is left out, or a sequence of which only its
  controls are kept, no longer ends an unfinished sequence right before it, which
  then takes in the text after. `Harmless` says that this never happens: after such
  an unfinished sequence nothing is written up to the next one, but controls outside
  a string. `SavedStates.HarmlessFromOutput` tells it from the output's own sequences. `SavedSegments.SegmentsKeepMeaning` shows that harmless outputs are kept,
  and `SavedLimits.KeepsThroughoutExactlyWhen` that what is written does what the
  output did at every point exactly for these (a `b` that follows an unfinished
  control sequence, and makes it a repeat, aside). Harm done to a string, or by text
  whose first character ends an escape or control sequence, shows in the finished
  segments whatever comes before and after (`SavedLimits.HarmShows`), so for such
  outputs the segments are right exactly when the output is harmless
  (`SavedLimits.SegmentsKeepExactlyWhen`). In general they need not be wrong:
  `EchoExample.EchoKeeps` is an output in which the text that is taken in does by
  chance what it did. `SavedSegments.TextIsSwallowed` is the plainest failing family.
- One-row terminals. The row copied for a shortened repeat is the row at the top of
  the screen, which on a one-row screen is the cursor's own row. Whether that is the
  full row can be told from the start column, the width and the count
  (`EndsFullRow`, `RepeatScreen.TopRowAfter`); a repeat is put back exactly then, or
  when it leaves nothing out. `SavedOutput.SegmentRows` says what is read back of any
  segment on any size, and `OneRowScreens.ReadsBackExactlyWhen` that it is right
  exactly when every repeat is put back or reading does not come as far as the newest
  that is not, whatever follows it. `OneRowScreens.ReadsOneForTwo` is a one-row
  terminal whose rows read back wrong.
- Program names. `command_line` escapes the program name like any argument, but it
  is read by other rules. A name that needs quoting reads back exactly when it holds
  no quote and does not end in a backslash. CommandLineToArgvW ends the name at its
  first quote, so that the arguments after it read back exactly when it holds none: a
  quote in it always spills into them (`ProgramQuotes.ArgumentsReadBack`). The C
  runtime lets every quote in the name open or close, so that they read back exactly
  when the quotes close again with no blank outside them, or when there are no
  arguments and no such blank (`RuntimeNames.NamesReadBack`).

Two smaller observations: runs of copies are let go by the buffer's length, up to a
screen early, which is harmless because each shortened repeat leaves a screen of the
same rows (`LeftOutRows.Forget`); and an answer of another run that arrives on the
loaded page clears the live text of the run being shown
(`Transcript.OtherAnswerErases`).

## Model

| member | source | states |
|---|---|---|
| RepeatScreen.ShortenedRepeat | src/lib/terminal-exit-state.js:190-245 | For any cells, cursor, margins and rendition, printing a 1- or 2-column character a shortened number of times leaves the same screen and cursor as printing it in full; the full print only adds the left-out full rows at the scrollback end (none where margins stop scrolling), and both have pushed a screen of full rows |
| RepeatScreen.PeriodIsWholeRows | src/lib/terminal-exit-state.js:194-198 | The period is a whole number of rows of 1-column and of 2-column characters, for even and odd widths |
| RepeatScreen.KeptBounds | src/lib/terminal-exit-state.js:239-244 | What is kept lies in [settled, settled + period) whatever the count is, and kept plus the omitted periods is the count |
| RepeatScreen.Settles | src/lib/terminal-exit-state.js:190-198 | After a screen and a row of one character the screen is a function of that character and the cursor column only |
| RepeatScreen.TopRowIsFull | src/lib/terminal-exit-state.js:376-393 | On a settled screen the copied row at the top is the full row exactly when the screen has two rows or more, or its only row is right before wrapping and drawn as wrapped rows are |
| RepeatScreen.TopRowAfter | src/lib/terminal-exit-state.js:376-393 | Whether a shortened repeat leaves the full row at the top can be told before it is printed, from the cursor column, the width, the count and the renditions |
| ScreenCounts.RolledRows | src/lib/terminal-exit-state.js:74-78 | After n steps of scrolling, inserting or deleting, each row between the margins is the one n rows away or blank |
| ScreenCounts.CountedIs | src/lib/terminal-exit-state.js:74-78 | What S, T, L, M, I and Z do on a screen with margins and tab stops, row by row, L and M only inside the margins |
| ScreenCounts.CutCountSettles | src/lib/terminal-exit-state.js:74-78 | For any screen, cursor, margins and tab stops, a count past the screen's rows or columns ends exactly as the screen's size does |
| ScreenCounts.LimitIsNeeded | src/lib/terminal-exit-state.js:74-78 | One count less than the limit may still differ |
| LeftOutRows.Forget | src/lib/terminal-exit-state.js:354-397 | Forgetting a run and all older ones leaves every newer row and, on two rows or more, a further screen of rows before them unchanged |
| LeftOutRows.ReadAgree | src/lib/terminal-exit-state.js:403-442 | Two terminals whose newest budget + screen rows agree, and that have more, read back the same rows, size and dropped flag |
| LeftOutRows.ShownExactly | src/lib/terminal-exit-state.js:404-440 | What a terminal shows is every row up to the last one of the screen that draws more than nothing or a line start, each drawn by whether the next row wraps |
| RowBudget.NewestGreedy | src/lib/terminal-exit-state.js:413-422 | Reading keeps the longest contiguous end of the rows that fits both budgets, and says dropped exactly when a row was left out |
| RowBudget.NewestDiffer | src/lib/terminal-exit-state.js:413-422 | Rows that first differ after the k newest read the same exactly when reading does not come so far in either |
| SavedTerminal.Terminal.constructor | src/lib/terminal-exit-state.js:446-449 | A terminal that keeps budget + 1 scrollback rows starts with the invariant that ties its buffer, markers and runs to the whole history |
| SavedTerminal.Terminal.Output | src/lib/terminal-exit-state.js:446-453 | Any output trims the oldest rows past the limit and moves the markers; the history grows by exactly the rows that scrolled off and the new screen |
| SavedTerminal.Terminal.BeforeRepeat | src/lib/terminal-exit-state.js:369-375 | A repeat with a second parameter marks the first screen row, on the normal screen only |
| SavedTerminal.Terminal.Trim | src/lib/terminal-exit-state.js:363-368 | The trims counted by the gauge marker are the rows trimmed since the recorded base, or infinite once the marker is gone |
| SavedTerminal.Terminal.Record | src/lib/terminal-exit-state.js:383-393 | A run is recorded after the row above the screen, runs past the budget are let go, and the invariant over every row ever written is kept |
| SavedTerminal.Terminal.Hook | src/lib/terminal-exit-state.js:376-395 | A hook records the rows its periods hold exactly when the repeat pushed rows into the scrollback, as copies of the row at the screen's top, and nothing otherwise |
| SavedTerminal.KeepCopies | src/lib/terminal-exit-state.js:432-436 | The copies of one run are kept in order, the first drawn by whether the next row wraps, until the budget is full |
| SavedTerminal.KeepRow | src/lib/terminal-exit-state.js:427-440 | One row, after the copies that follow it, is kept as the unshortened terminal would |
| SavedTerminal.DrawnEnd | src/lib/terminal-exit-state.js:404-407 | Reading ends after the last row of the screen that draws more than nothing or a line start, or above the screen when none does; every row it leaves out draws just that |
| SavedTerminal.NewestRows | src/lib/terminal-exit-state.js:403-442 | Reading back the trimmed, shortened terminal gives exactly the newest rows of the history with every run of copies put back |
| SavedTerminal.Terminal.Rows | src/lib/terminal-exit-state.js:403-442 | At any time the newest rows read equal those of a terminal that never trimmed, shortened or let go |
| SavedOutput.SegmentRows | src/lib/terminal-exit-state.js:446-458 | Any segment on any terminal size, with whatever else the terminal remembers: its long repeats shortened and hooked, it reads back as the newest rows of printing it in full without a row limit, but for copies of the wrong row where a repeat is not put back; with every repeat put back, exactly those |
| OneRowScreens.WrongDiverges | src/lib/terminal-exit-state.js:376-393 | Whatever later output does, what is read back and what was printed first differ, from the newest row back, at the newest repeat that is not put back |
| OneRowScreens.ReadsBackExactlyWhen | src/lib/terminal-exit-state.js:376-393 | Where the drawing tells a wrong copy from the row it stands for, any segment reads back right exactly when every repeat is put back (always on two rows or more; on one row when it leaves nothing out or ends right before wrapping) or reading does not come as far as the newest that is not |
| OneRowScreens.ReadsOneForTwo | src/lib/terminal-exit-state.js:376-393 | A one-row terminal of two columns that repeats a character 11 times reads back a row of one for a row of two |
| SavedRows.SavedOutputRows | src/lib/terminal-exit-state.js:471-489 | Across segments, newest first, the rows are a contiguous end of all rows read back within 20,000 rows and 4 Mi characters, one more would not fit, and not dropped implies nothing is left out; with every repeat put back, of all rows printed |
| SavedPlay.StepsDo | src/lib/terminal-exit-state.js:354-397 | The steps a terminal takes for a written text, a shortened repeat and its hook as one, do exactly the effects that text means |
| SavedPlay.RunsAsWritten | src/lib/terminal-exit-state.js:239-245 | The whole repeat that a shortened one stands for is cut by the terminal's own rule to the count written, and the hook's number is what that leaves out |
| SavedPlay.RewrittenRows | src/lib/terminal-exit-state.js:462-489 | From an output to rows: what is rewritten, run in terminals that trim and read back is the newest rows, within both budgets, of the output's effects performed in full, if every repeat is put back, as on two rows or more it is; for any terminal that draws characters and repeats on the normal screen with autowrap on and insert mode off, and performs every other effect in its own way |
| SavedPages.PageStart | src/lib/terminal-exit-state.js:499-503 | A page opens at the first line start of its even share, else at the last one a full page reaches, else at its even share |
| SavedPages.SavedRowPages | src/lib/terminal-exit-state.js:494-508 | The pages tile the rows in order, hold at most size rows each, and open fairly; the backwards loop ends; no rows give one empty page; where every row starts a line there are exactly ceil(rows / size) pages, whose sizes differ by less than their number |
| SavedPages.PagesDrawEverything | src/lib/terminal-exit-state.js:491-514 | Drawing the pages writes every saved row once and in order |
| VtScanner.ControlScanner.ReadOn | src/lib/terminal-exit-state.js:99-146 | Reading on to any index leaves the scanner state that reading unit by unit gives, with an open sequence ended at the end of the buffer |
| VtScanner.ScanSlices | src/lib/terminal-exit-state.js:138-145 | However the buffer is sliced for reading, the same sequences are visited |
| VtScanner.TokensSpan | src/lib/terminal-exit-state.js:175-180 | Sequences are non-empty, disjoint and in order, and no unit outside them starts a sequence |
| VtScanner.TokensFit | src/lib/terminal-exit-state.js:128-131 | The last sequence ends one past the buffer exactly when the buffer ends in a high surrogate that breaks off a sequence |
| VtItems.GoSame | src/lib/terminal-exit-state.js:99-173 | Text read from the same scanner state reads the same wherever it stands in a buffer |
| VtItems.AppendClosed | src/lib/terminal-exit-state.js:99-146 | After a text that ends outside every sequence, what follows reads as it does alone |
| VtItems.AppendAnew | src/lib/terminal-exit-state.js:114-117 | After a text that leaves a sequence unfinished, a text that starts a sequence anew reads as it does alone |
| VtTokens.ItemsAreWoven | src/lib/terminal-exit-state.js:99-146 | What an output says is exactly its visited sequences with the text between them |
| VtTokens.TokensGood | src/lib/terminal-exit-state.js:99-146 | Every visited sequence, cut out of the buffer, reads as itself, and is unfinished only where the next one starts or the buffer ends |
| VtPieces.TokensShaped | src/lib/terminal-exit-state.js:120-173 | A sequence holds only controls that run, parameter characters and, once dispatched, one final character |
| VtPieces.CsiReads | src/lib/terminal-exit-state.js:160-173 | A control sequence that is written out reads as that sequence with those parameters |
| VtGrammar.FinishedReads | src/lib/terminal-exit-state.js:119-173 | ESC, intermediates and a final character; a CSI with its prefix, parameters, intermediates and final; a malformed CSI; and a string: each, with controls and DEL strewn in, reads as one sequence with exactly these parts, and is ignored when CAN, SUB or a C1 control ends it |
| VtGrammar.StringReads | src/lib/terminal-exit-state.js:107-113 | ESC and a backslash end any string, as one |
| VtGrammar.UnfinishedReads | src/lib/terminal-exit-state.js:99-105 | A sequence that is left unfinished is one sequence all the same |
| VtGrammar.InterruptedReads | src/lib/terminal-exit-state.js:114-117 | ESC or a C1 control that starts a sequence ends an unfinished one right before it |
| VtGrammar.BrokenReads | src/lib/terminal-exit-state.js:129-132 | A character that is not ASCII breaks off an escape or control sequence and is lost with it, a surrogate pair whole |
| VtGrammar.PlainTextReads | src/lib/terminal-exit-state.js:139-145 | Text without ESC or a C1 control that starts a sequence reads as its characters |
| VtGrammar.DeviceStringReads | src/lib/terminal-exit-state.js:82-83 | ESC P, X, ^ and _ open a string up to ESC and a backslash, BEL included |
| VtGrammar.EscapeReads | src/lib/terminal-exit-state.js:148-158 | ESC, intermediates and a final character, such as ESC ( B, are one escape sequence |
| SavedMeaning.FirstParamReads | src/lib/terminal-exit-state.js:184-188 | A parameter written out is read back, with the parameters after it |
| SavedSegments.RepeatMeans | src/lib/terminal-exit-state.js:238-245 | However a repeat is written (verbatim, anew, or shortened with its hook), it repeats exactly count times |
| SavedSegments.JoinKeeps | src/lib/terminal-exit-state.js:258-262 | Joining a repeat with the one held back, and the same characters between them, keeps the meaning |
| SavedSegments.VoidKeeps | src/lib/terminal-exit-state.js:263-269 | Leaving out a repeat after a control, keeping only its controls, keeps the meaning |
| SavedSegments.CutKeeps | src/lib/terminal-exit-state.js:291-295 | Cutting a count to the screen size, its controls first, keeps the effect, whose count is the smaller of the two (that a screen ends alike is ScreenCounts.CutCountSettles) |
| SavedSegments.VisitKeeps | src/lib/terminal-exit-state.js:274-301 | Each sequence, with the text before it, keeps the relation between the rewritten text (with the repeat held back) and the output |
| RewriteChoices.VisitExactly | src/lib/terminal-exit-state.js:274-301 | What is written for every sequence but a repeat, told from its characters: ESC c ends the segment; CSI J and CSI ? J that say 3 are left out; S, T, L and M past the rows and I and Z past the columns are cut; all others are copied |
| RewriteChoices.RepeatVisited | src/lib/terminal-exit-state.js:258-273 | When a repeat joins the one held back, keeps only its controls, is held back, or is written, told from its characters and the text before it |
| RewriteChoices.RepeatWritten | src/lib/terminal-exit-state.js:238-245 | A repeat up to the settled count is copied or written anew; a longer one is written with a second parameter 1 and OSC 7357 with the periods it leaves out |
| RewriteChoices.DoesExactly | src/lib/terminal-exit-state.js:201-301 | What every sequence does, told from its characters: its controls run; b repeats the last character; S, T, L, M, I and Z do no more than the screen can show; CSI J and CSI ? J that say 3 do nothing; ESC, strings and all others do what they say |
| RewriteChoices.HookExactly | src/lib/terminal-exit-state.js:71-73 | Exactly OSC 7357 with a decimal number, ended by BEL, is a hook, for that many periods |
| RewriteChoices.StartsOver | src/lib/terminal-exit-state.js:286-288 | Only ESC c starts the output's story over |
| SavedSegments.SegmentsKeepMeaning | src/lib/terminal-exit-state.js:210-313 | For every harmless output the segments do, one for one, exactly what its parts between full resets do, each hook read as the periods it stands for |
| SavedSegments.TextIsSwallowed | src/lib/terminal-exit-state.js:289-291 | For every title and text: an unfinished command directly followed by a scrollback erase swallows the text that the output draws, so such outputs are not harmless |
| VtOpen.ReadsOn | src/lib/terminal-exit-state.js:99-146 | Plain text after an unfinished sequence: the sequence takes in a first part of it, and the rest is drawn |
| VtOpen.StringGrows | src/lib/terminal-exit-state.js:114-119 | Whatever follows an unfinished string and does not start a sequence anew becomes part of that string, whatever comes after |
| SavedLimits.GapBreaks | src/lib/terminal-exit-state.js:286-301 | Text that an unfinished sequence takes in, but controls outside strings, never does what it did on its own, a b that makes a repeat aside |
| SavedLimits.KeepsThroughoutExactlyWhen | src/lib/terminal-exit-state.js:210-313 | Without such a b, what is written does what the output did at every point of it exactly when the output is harmless |
| SavedStates.StateIs | src/lib/terminal-exit-state.js:210-313 | While nothing harmful came, what is written leaves the terminal in the state in which the last sequence that is not left out, cut out of the output, leaves it |
| SavedStates.HarmlessFromOutput | src/lib/terminal-exit-state.js:210-313 | An output is harmless exactly when its own sequences, and the text between them, tell so without the rewriting |
| SavedLimits.HarmShows | src/lib/terminal-exit-state.js:289-291 | Harm first done to a string, or by text whose first character ends an escape or control sequence, makes a finished segment differ, for arbitrary output before and after |
| SavedLimits.SegmentsKeepExactlyWhen | src/lib/terminal-exit-state.js:210-313 | For outputs that could do harm in these ways only, the finished segments do what the output does exactly when it is harmless |
| EchoExample.EchoKeeps | src/lib/terminal-exit-state.js:289-291 | An output that is not harmless and is kept all the same: the b taken in repeats the b before it |
| SavedShorts.SegmentsHooked | src/lib/terminal-exit-state.js:238-245 | In every segment that is written each shortened repeat is followed at once by its hook, with the counts the rule gives |
| SavedRewriter.Rewriter.Emit | src/lib/terminal-exit-state.js:219-226 | Text is added unchanged; what waits becomes a write exactly once it makes 524,288 of work |
| SavedRewriter.Rewriter.EmitText | src/lib/terminal-exit-state.js:227-235 | Text is added unchanged, one piece after another, each newline making work for an eighth of the columns |
| SavedRewriter.PieceIs | src/lib/terminal-exit-state.js:229-231 | A piece has 32,768 units, or one more to keep a surrogate pair whole, or what is left |
| SavedRewriter.WeightIs | src/lib/terminal-exit-state.js:292-299 | The work a sequence makes, told from its characters: a count that rolls rows a quarter of the columns each time, one that tabs one, J an eighth of the screen, any other its length |
| SavedRewriter.Rewriter.Repeat | src/lib/terminal-exit-state.js:258-273 | The mutable state changes as the rewriting of a repeat says |
| SavedRewriter.Rewriter.VisitToken | src/lib/terminal-exit-state.js:274-301 | The mutable state changes as the rewriting of one sequence says |
| SavedRewriter.SavedSegmentsOf | src/lib/terminal-exit-state.js:210-313 | The writes of each segment, however the scan is sliced, make up exactly the rewritten text of that segment |
| Transcript.CursorMap.Record | src/recovery-policy.js:37-57 | A checkpoint replaces its run's cursor only when newer, then moves to the end, and the oldest inactive cursors past 2,048 go |
| Transcript.EvictKeeps | src/recovery-policy.js:49-54 | Eviction never touches an active run and ends with at most 2,048 cursors unless the oldest candidate cannot be evicted |
| Transcript.EvictsOldest | src/recovery-policy.js:49-54 | One cursor over 2,048 lets go of exactly the one that moved longest ago among those of inactive runs |
| Transcript.RecordMovesLast | src/recovery-policy.js:37-44 | A newer checkpoint takes its run's cursor out and puts it last |
| Transcript.RecordAdvances | src/recovery-policy.js:37-57 | Recording any message moves an active run's cursor to the newest of its checkpoints, or not at all |
| Transcript.Replay | src/recovery-policy.js:103-135 | The replay loop computes the fold of the events over the loaded page, and keeps the newest messages up to the limit, counting those it drops |
| Transcript.ReplayHolds | src/recovery-policy.js:103-120 | After any events every message held is the last one taken of its id, or the one loaded when none was, and every such message is held: an event is taken when it is past its run's cursor and its message was loaded, came before, nothing older was left unloaded, the page was empty, or it does not precede the page's first message |
| Transcript.ReplayKeeps | src/recovery-policy.js:131-135 | The page kept is in order, holds each id once, and leaves out none of those messages but the oldest, and only when full |
| Transcript.SortIsStable | src/recovery-policy.js:82-85 | Messages with the same order stay as they arrived |
| Transcript.TextAfter | src/recovery-policy.js:16-18 | A message that is taken clears the live text exactly when it is an assistant's and names a run; one that is not taken leaves it |
| Transcript.JoinedAlways | src/recovery-policy.js:103-130 | After every event: the cursor is the newest checkpoint seen anywhere, the answer shown is that checkpoint or still the loaded one, and the live text is every delta since it was last cleared that the cursor does not cover |
| Transcript.AnswerIsWhole | src/recovery-policy.js:24-35 | For every split between snapshot and buffered events, the published answer is the body shown, then two gaps named exactly (what the page's cursor hides, what was cleared), then the live text |
| Transcript.WholeExactlyWhen | src/App.jsx:626-628 | Nothing is lost or doubled exactly when a newer checkpoint was buffered or no buffered delta between the loaded checkpoint and the kept cursor carries text, and no delta without a checkpoint before the last event that clears the live text carries text; a kept cursor not past the loaded checkpoint, and no such event, are enough |
| Transcript.RolledBack | src/App.jsx:626-628 | A reload of the open conversation whose cursor already counted a buffered checkpoint goes back to the older body without the text in between |
| Transcript.RolledBackFits | src/App.jsx:626-628 | That load is one the other results speak of, and no newer checkpoint was buffered |
| Transcript.OtherAnswerErases | src/recovery-policy.js:115-119 | An answer of another run on the loaded page clears this run's live text and leaves its cursor |
| Transcript.ErasedByOther | src/recovery-policy.js:87-90 | A load in which the answer of another run erases the newer live tail of the run being shown |
| Transcript.ErasedFits | src/recovery-policy.js:87-90 | That load is one the other results speak of |
| Transcript.TrimKeepsNewest | src/recovery-policy.js:131-133 | A page over its limit keeps exactly its newest messages, in order |
| Transcript.UpsertKeeps | src/recovery-policy.js:72-75 | A late message leaves one copy, the new one, in a page that stays in order and is otherwise unchanged |
| LifecycleStates.UpsertFinds | src/lib/worktree-lifecycle.js:86-90 | A change replaces its own path unless that is newer or the watermark decided it; every other path stays |
| LifecycleStates.MergeFinds | src/lib/worktree-lifecycle.js:94-98 | A snapshot decides every path but those with something newer than it |
| LifecycleStates.WatermarkRises | src/App.jsx:79-83 | Raising the watermark while updates wait changes nothing newer than the snapshot |
| LifecycleStates.EveryRun | src/App.jsx:76-83 | In every run, however renders fall between events, the list will show the highest-revision fact of each path, absence and removals included |
| LifecycleStates.ShownAfter | src/App.jsx:76-83 | A page object that takes any events, snapshots, restarts and renders, and then renders until no update waits, shows the newest fact about every path |
| LifecycleStates.PagesConverge | src/lib/worktree-lifecycle.js:82-98 | Two pages that received the same facts in any order show the same |
| LifecycleStates.PageMatchesServer | src/lib/worktree-lifecycle.js:82-98 | Once everything up to a revision arrived, the page shows what the server has at that revision |
| LifecycleOutput.ChunkExtends | src/lib/worktree-lifecycle.js:56-70 | A streamed chunk adds exactly what was missing wherever it overlaps, keeping the newest 32,768 characters; it adds nothing exactly when it is known or not ours, and asks for a reload exactly across a gap or of another run |
| LifecycleOutput.ReadKeeps | src/lib/worktree-lifecycle.js:74-80 | A read takes over, but for output of the same named run that is shown further, which stays with its end and its mark |
| LifecycleOutput.NeverTakenAway | src/lib/worktree-lifecycle.js:56-80 | Whatever order chunks and reads come in, the dialog shows a true suffix of the run's output and never less than before |
| LifecycleOutput.SameEndSameOutput | src/lib/worktree-lifecycle.js:56-80 | Two dialogs equally far in the same run show the same output |
| CommandFence.Fence.Observe | src/lib/terminal-command-fence.js:8-24 | One event changes the map of fences as specified |
| CommandFence.Fence.Connect | src/lib/terminal-command-fence.js:31-39 | A connection claims ownerless fences in place and releases the reports it brings |
| CommandFence.Fence.Release | src/lib/terminal-command-fence.js:45-56 | Reports are applied in order; whether any lifted a fence is returned |
| CommandFence.Fence.Check | src/lib/terminal-command-fence.js:25-27 | Anything but input and resizes is allowed; those are refused exactly when some entry has their terminal's number |
| CommandFence.EveryRun | src/lib/terminal-command-fence.js:3-56 | In every run each terminal in the map is fenced, and owned, as the reports about it alone say; one missing from the map had at least 256 others fenced after it; at most 256 are kept |
| CommandFence.FenceIsExact | src/lib/terminal-command-fence.js:3-56 | While fewer than 256 others failed after it, a terminal's input is refused exactly when its own reports leave it fenced |
| CommandFence.AllowedAfter | src/lib/terminal-command-fence.js:3-56 | A fence object that observed any events allows a terminal whose own reports leave it clear, and refuses exactly the others while fewer than 256 failed after them |
| CommandFence.StaysFenced | src/lib/terminal-command-fence.js:41-56 | A fenced terminal stays fenced until a runtime other than its owner reports it running, reattached and unreserved |
| CommandFence.OwnedAfterConnection | src/lib/terminal-command-fence.js:31-39 | After any connection no fence lacks an owner |
| BrokerStatus.Scanner.Scan | server/agent-supervisor.c:407-421 | Whatever pieces a text comes in, the 40-byte scanner holds the status of its last whole status line since it was taken |
| BrokerStatus.Scanner.TakeStatus | server/agent-supervisor.c:592-594 | Taking the status starts counting status lines afresh |
| BrokerStatus.SinceSplits | server/agent-supervisor.c:407-421 | Cutting a text anywhere gives the same status |
| BrokerStatus.SinceIsLastLine | server/agent-supervisor.c:398-421 | A status is reported exactly when some whole line is that status line and none ends after it |
| BrokerStatus.MeaningIs | server/agent-supervisor.c:414-417 | The two status lines, character by character, and no other line, say attached and detached |
| DetachWindow.Supervisor.Drain | server/agent-supervisor.c:425-439 | Draining returns the last status line of what was read |
| DetachWindow.Supervisor.Turns | server/agent-supervisor.c:579-605 | A turn of the loop decides as specified from the two clock samples |
| DetachWindow.Supervisor.TurnsWindows | server/agent-supervisor-windows.c:301-337 | The Windows loop decides the same |
| DetachWindow.ExpiresExactlyWhenOver | server/agent-supervisor.c:581-605 | The provider is ended at exactly the first turn at which the owner has been gone, and nothing attached or reported, for the window and as long again, but at most ten seconds |
| DetachWindow.NothingPending | server/agent-supervisor.c:585-605 | When the deciding drain emptied the pipe, no status line was waiting at the clock sample, the last one written was not attached, and the window and as long again, but at most ten seconds, followed the last line read |
| ProcessTree.NoChildrenMeansEmpty | server/agent-supervisor.c:375-385 | Having no child of its own tells the subreaper that nothing of the tree is left, however deep |
| ProcessTree.StepKeeps | server/agent-supervisor.c:536-542 | Forking, exiting, reparenting and reaping keep every process below the supervisor through living older parents |
| ProcessTree.ReportIsFinal | server/agent-supervisor.c:627-636 | After a report of emptiness nothing descended from the provider exists in any continuation of the run |
| ProcessTree.SomeRunReports | server/agent-supervisor.c:622-636 | A run in which the provider exits, is reaped and is reported, with its status |
| ProcessTree.DecideIsExact | server/agent-supervisor.c:627-629 | Emptiness is reported exactly when the provider was reaped and nothing is left, unless a complete snapshot counted something alive |
| ProcessTree.ReapChildren | server/agent-supervisor.c:363-373 | Reaping removes exactly the dead children of the supervisor, sees the provider among them and keeps its status |
| ProcessTree.IsOwnedDescendant | server/agent-supervisor.c:297-313 | A process is owned exactly when at most 256 readable entries lead up from it, each to its parent, to one whose parent is the supervisor; it is not owned exactly when it is gone or they lead to one whose parent is itself or nothing past process 1 |
| ProcessTree.InspectOwnedTree | server/agent-supervisor.c:315-361 | The snapshot is complete exactly when every listed process is owned or not; it counts exactly the owned ones, and those alive, and kills exactly the living ones but the provider |
| ProcessTree.NeverAdopted | server/agent-supervisor.c:297-358 | Where entries of other processes are true, only processes of the tree are counted, and only living ones as alive or killed |
| ProcessTree.CompleteSnapshotIsTrue | server/agent-supervisor.c:315-361 | A complete snapshot that lists the tree misses no living process of it; where entries of other processes are true, it counts exactly the living ones |
| LaunchFile.Write | server/agent-supervisor-darwin.c:131-172 | The file is the directory, the count, the arguments and the environment without the owner mark, or nothing past 1 MiB |
| LaunchFile.WithoutOwner | server/agent-supervisor-darwin.c:163-166 | The environment is filtered of the owner mark |
| LaunchFile.ParseFile | server/agent-supervisor-darwin.c:368-388 | Counting NULs and filling the token array stays in bounds and parses as specified |
| LaunchFile.WholeNumberIs | server/agent-supervisor-darwin.c:378-381 | A token is a whole number exactly when it is white space, a sign or none, and digits, and then that number |
| LaunchFile.LaunchReadsBack | server/agent-supervisor-darwin.c:142-172 | The helper reads exactly the directory, arguments and filtered environment that were written, or nothing exactly when they cannot be run |
| LaunchFile.FilteredIs | server/agent-supervisor-darwin.c:163-166 | The filter looks at each entry alone, takes out those that name OUTRIGHT_UTILITY_OWNER=, and keeps the order of the rest |
| LaunchClaim.RecordIs | server/agent-supervisor-darwin.c:275-308 | A recorded exit reads back as its code |
| LaunchClaim.RecordReads | server/agent-supervisor-darwin.c:286-308 | A record reads as a code exactly when its first 15 characters are a whole number from 0 to 255 and a line end |
| LaunchClaim.CutRecordSaysNothing | server/agent-supervisor-darwin.c:286-308 | A record that was cut short reads as no record |
| LaunchClaim.OneClaimer | server/agent-supervisor-darwin.c:338-364 | Under any interleaving of starts, at most one claims the launch file |
| LaunchClaim.ExactlyOnce | server/agent-supervisor-darwin.c:444-467 | The command is launched at most once, exactly as written, and a readable status is the claiming start's exit, wherever starts die |
| LaunchClaim.RecordStays | server/agent-supervisor-darwin.c:275-283 | Once an exit can be read back it never changes |
| LaunchClaim.UndisturbedStart | server/agent-supervisor-darwin.c:444-467 | A start that nothing disturbs claims the file, launches exactly the command written, if it can be run and its directory entered, and leaves a record that reads back as its exit, 71 or 73 |
| LaunchClaim.GivesUp | server/agent-supervisor-darwin.c:338-364 | A start gives up exactly when it finds a recorded status, no file, an empty one or one past 1 MiB, or the file gone when it claims it |
| ArgumentQuoting.IsPlain | server/agent-supervisor-windows.c:137-145 | Only non-empty text of the bare character set is passed bare |
| ArgumentQuoting.QuoteArgument | server/agent-supervisor-windows.c:147-177 | The quoted argument is written within 2 * length + 3 characters and ends in NUL |
| ArgumentQuoting.WriteCommandLine | server/agent-supervisor-windows.c:179-197 | The joined line fits the summed capacity |
| ArgumentQuoting.ReadEscaped | server/agent-supervisor-windows.c:153-176 | Inside quotes the escaped text reads back as itself and ends at the closing quote |
| ProgramQuotes.NeverInStep | server/agent-supervisor-windows.c:147-197 | Once the quotes are out of step, the last of the arguments still to come is never the last that is read |
| ProgramQuotes.ArgumentsReadBack | server/agent-supervisor-windows.c:147-197 | With the name read as CommandLineToArgvW reads it, and under either rule for doubled quotes, the program name reads back exactly when it is representable, the arguments after it exactly when it holds no quote, and the whole line exactly when the name is representable |
| RuntimeNames.NameReads | server/agent-supervisor-windows.c:147-177 | By the C runtime's rule an escaped text leaves quotes open as its own quotes do, or ends the name at its first blank outside them |
| RuntimeNames.NamesReadBack | server/agent-supervisor-windows.c:147-197 | With the name read as the C runtime reads it, the name and the whole line read back exactly when the name is representable, and the arguments exactly when its quotes close again with no blank outside them, or there are none and no such blank |
| ArgumentQuoting.ProgramReadsBack | server/agent-supervisor-windows.c:131-177 | By CommandLineToArgvW's rule the program name reads back exactly when it needs no quoting, or holds no quote and does not end in a backslash |
| PaneLayout.EveryRun | src/lib/pane-layout.js:115-181 | Every run of open, close, move, swap, resize, focus and preset keeps views distinct, the conversation present, the focus shown and every ratio from 0.05 to 0.95 |
| PaneLayout.RemoveViews | src/lib/pane-layout.js:106-113 | Removing a view takes it, and nothing else, out of the reading order |
| PaneLayout.DockViews | src/lib/pane-layout.js:115-119 | Docking puts the new view right before or after its target and leaves the rest of the reading order alone |
| PaneLayout.DocksBeside | src/lib/pane-layout.js:115-119 | Docking replaces the target's pane, and nothing else, by a split of equal halves: a row for left and right, a column for up and down, the new view before or after it |
| PaneLayout.OpenKeeps | src/lib/pane-layout.js:122-128 | Opening adds exactly that view, focused, and keeps the layout valid |
| PaneLayout.CloseKeeps | src/lib/pane-layout.js:131-144 | Closing removes exactly that view, never the conversation, leaves another view's focus alone and keeps the layout valid |
| PaneLayout.CloseFocuses | src/lib/pane-layout.js:134-144 | Closing the focused pane focuses the first view of its sibling, which takes its place |
| PaneLayout.CloseUndoesOpen | src/lib/pane-layout.js:122-144 | Closing a view just opened restores the tree, with the focus on the view it was opened beside |
| PaneLayout.MoveKeeps | src/lib/pane-layout.js:146-151 | Moving keeps the views and the layout valid |
| PaneLayout.MoveIsCloseThenOpen | src/lib/pane-layout.js:146-151 | Moving is closing and opening again beside the target |
| PaneLayout.SwapViews | src/lib/pane-layout.js:153-159 | Swapping exchanges the two views in the reading order |
| PaneLayout.SwapKeeps | src/lib/pane-layout.js:153-159 | A swap of two views that are shown exchanges them and focuses the first; any other changes nothing |
| PaneLayout.SwapUndoesSwap | src/lib/pane-layout.js:153-159 | Swapping twice restores the tree |
| PaneLayout.ResizeIsLocal | src/lib/pane-layout.js:162-177 | Resizing sets the ratio at its path, kept from 0.05 to 0.95, and nothing at any other path |
| PaneLayout.PresetsArrange | src/lib/pane-layout.js:39-51 | What each preset arranges, with its ratios, and where the focus goes |
| PaneRepair.Walk.VisitNode | src/lib/pane-layout.js:70-87 | The walk adds to the seen views and problems as specified |
| PaneRepair.NormalizeLayout | src/lib/pane-layout.js:65-96 | Normalizing computes the repaired layout and its problems |
| PaneRepair.NormalizeEstablishes | src/lib/pane-layout.js:65-96 | Whatever was saved, what is used is valid |
| PaneRepair.RepairsReadable | src/lib/pane-layout.js:65-96 | A repaired layout shows exactly the views that can be read, each where it is named first, with the conversation put in front when it is missing; another version or no object gives the default and its problem |
| PaneRepair.SplitRepaired | src/lib/pane-layout.js:80-86 | A split of two readable halves stays, its ratio kept from 0.05 to 0.95, or 0.5 when it has none, which is reported unless it changes nothing |
| PaneRepair.NormalizeTwice | src/lib/pane-layout.js:65-96 | Repairing a repaired layout changes nothing and reports no problem |
| PaneRepair.ReportsExactly | src/lib/pane-layout.js:65-96 | No problem is reported exactly when the saved tree is used as it stands |
| PaneRects.ComputeRects | src/lib/pane-layout.js:198-240 | The recursive placing computes the specified rectangles, separators and fits |
| PaneRects.FitsExactly | src/lib/pane-layout.js:183-203 | fits holds exactly when every pane that is placed has the pixels its view needs, which is when the area meets the tree's minimum |
| PaneRects.SplitsFairly | src/lib/pane-layout.js:209-224 | In a large enough area a split gives both halves their minimum and loses nothing |
| PaneRects.FollowsRatio | src/lib/pane-layout.js:209-224 | The first half of a split is its ratio of the room, rounded to the nearest pixel, unless a half would fall below a minimum that both could have; the second half is the rest |
| PaneRects.Tiles | src/lib/pane-layout.js:198-240 | In a large enough area panes and separators lie inside it, are pairwise disjoint and have its total area |
| PaneRects.TilesWindow | src/lib/pane-layout.js:198-240 | When they fit, panes and separators tile the window itself |
| PaneRects.PanesAreViews | src/lib/pane-layout.js:202-208 | Each view is placed once, in reading order |
| PaneRects.SeparatorsLead | src/lib/pane-layout.js:225-229 | Each separator names its split by path, stands where its first half ends, and its size lies between its bounds, however small the area |
| TerminalFind.RowCells | src/lib/terminal-search.js:43-56 | Mapping stops once enough units are mapped, and what it maps is right |
| TerminalFind.ColumnsCover | src/lib/terminal-search.js:39-56 | Each folded unit is mapped to the cell whose drawing holds it |
| TerminalFind.LocateUnit | src/lib/terminal-search.js:68-76 | The binary search and the row's cells, mapped once and kept, locate a unit as specified |
| TerminalFind.LocateIsExact | src/lib/terminal-search.js:22-76 | Every unit of a logical line is located in its row, at the cell that drew it, trimmed and padded cells left out |
| TerminalFind.VisitsApart | src/lib/terminal-search.js:78-85 | The occurrences visited are occurrences, from right to left, and disjoint |
| TerminalFind.VisitsCover | src/lib/terminal-search.js:78-85 | Every occurrence overlaps a visited one |
| TerminalFind.LineMatches | src/lib/terminal-search.js:64-87 | A bounded line search that maps only the rows it locates in gives the first budget + 1 matches of the unbounded one |
| TerminalFind.LineFoundIs | src/lib/terminal-search.js:78-85 | A line's matches are those of every visited occurrence, in order; of neighbours that give the same match one is kept |
| TerminalFind.FindMatches | src/lib/terminal-search.js:92-111 | A limited search gives exactly the last limit matches of the unlimited one, and is capped exactly when it left some out |
| MatchGeometry.OccurrenceOnScreen | src/lib/terminal-search.js:64-87 | Each visited occurrence runs from the cell of its first unit to the end of the cell of its last, and its last row and selection are those of exactly these cells |
| MatchGeometry.DecodesBack | src/lib/terminal-search.js:117-129 | A match decodes back to its first and last cell; the selection accepted is that one and no other, right edge included |
| MatchGeometry.LastRowIs | src/lib/terminal-search.js:157-158 | The last row is the row of the last cell |
| MatchGeometry.UnderBar | src/lib/terminal-search.js:159-174 | The bar covers a match exactly when some cell of the match lies in the covered rows and columns |

## Left out

- SavedSegments.SegmentsKeepMeaning: a buffer that ends in half a surrogate pair inside a sequence is left out. What a repeat draws right after an escape sequence, a string or a non-ASCII character is left to the terminal (`Again`), the same in the output and in what is written.
- SavedLimits.SegmentsKeepExactlyWhen: for text that only begins an escape or control sequence, or ends one as a repeat or an erase, later output can make up for the harm, so that only KeepsThroughoutExactlyWhen speaks of it.
- SavedMeaning: a scrollback erase does nothing, as the view promises to keep earlier output; a CAN or SUB inside a sequence ends it and does nothing else.
- SavedPlay.RewrittenRows: what a single effect does on the screen is any function of the view and of what else the terminal remembers; characters and repeats are drawn with autowrap on and insert mode off on the normal screen.
- RepeatScreen.ShortenedRepeat: autowrap on, insert mode off, one rendition while repeating; the repair of a wide character cut in two by a write is not modelled.
- `cellStyle`, `colorCodes`: renditions are abstract numbers, and drawing a row is an abstract function of it.
- `isCurrent` and the yields between slices: a superseded activation ends with no result.
- Transcript.AnswerIsWhole: one active run with its answer message on the loaded page, before its final message, which no other run's deltas interrupt; message sizes, tool events and the bounded live-delta buffer (`src/App.jsx:2276-2299`) are not modelled.
- Transcript.UpsertKeeps: every message has a `searchOrder`; without it the source's order is not total.
- LifecycleStates.PageMatchesServer: revisions are integers, a snapshot lists each path once with nothing newer than itself.
- `lifecycleFor`, labels and status texts: easy or cosmetic.
- DetachWindow.NothingPending: one drain empties the pipe; a drain stops after 64 KiB.
- The poll loop, signals, the handshake file and the kill rounds of the supervisors: only their stated effects are modelled.
- ProcessTree.ReapChildren: process numbers are not reused while their process is in the table; a reused provider number would overwrite the recorded provider status.
- LaunchClaim.ExactlyOnce: the directory is private and the file complete before a start, an unlink succeeds once, an exclusive create succeeds once; cleanup by the launcher is not modelled.
- `write_plist_string` and launchctl: not modelled.
- PaneRects.Tiles: an area below the minimum, where one pane is shown at a time.
- `neighborView`, `savePaneLayout`: easy members.
- PaneRects.SeparatorsLead: ratios are real numbers, so rounding of the ratio itself is not modelled.
- TerminalFind.FindMatches: folding is an abstract function of a cell's text; the search state (`createTerminalSearch`) around the scan, its markers and selection events are not modelled.
- MatchGeometry.UnderBar: columns and rows are integers.
- `src/lib/provider-accounts.js`, `src/components/WindowedDiff.jsx`, `src/lib/windowing.js`: would add only easy members.
- React components, hooks, fetch, WebSocket, SQLite and Git: not modelled.
