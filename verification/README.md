# Triumvirate daemon: a Dafny model of its evidence, fleet and session logic

The daemon decides, from what coding agents report, which files an agent really read, and it runs
fleets of agents and keeps their sessions. This project models the parts of it that carry an
argument and proves those arguments, for every input and every run. `dafny verify dfyconfig.toml`
checks everything.

**The shell-read analyser.** `ShellSplit`, `QuoteJoin` and `ReadParser` model the functions of
`codex.rs` on character sequences. `ShellSemantics` is a big-step semantics of the shell lists they
judge: words, reserved words, built-ins, AND-lists, sequences and pipelines after sections 2.2, 2.3,
2.4, 2.9 and 2.14 of the POSIX.1-2017 Shell Command Language. Files are threaded through the links;
what `cat`, `nl` and `sed -n` show is worked out from the contents of the files; every other program
does anything to the files; a link that groups commands, or one of whose stages has a command word
that is not literal or that, quotes removed, names something that changes the shell, may do anything
at all, ending the shell included; so may text outside the modelled fragment. Its lists of built-ins
and reserved words, its options of `cat` and `nl`, its reading of `sed` addresses and its flags of
`sh -c` are its own; the notions of base name, shell name, flag-shaped word and decimal number are
shared with `ReadParser`. `ReadShapes` and `CreditExact` say which texts are credited, with what, without
recourse to the parsers: every reader, script and numbering stage by its words, every window, whole
read, sequence and chain by the text that writes it; `JoinedLinks` says where a text is cut into
links and what the guard refuses. `ReadSoundness` relates the parsers to the semantics word by word,
`Delivery` says which lines the readers deliver, `GuardExact` says what the guard of AND chains lets
through and `GuardEscape` what a world that ends the shell there makes of it, `ShellWrapper` treats
the `sh -c` wrapper and `NormalizedScript` its script in adjacent quotes, and `ReadTheorems` holds
the credit theorems, about the command as it was run. `SedScripts` is the round trip of window
scripts; `PrintedSize` and `PrintedExact` say exactly when the bytes printed fit the budget.
`Witnesses` gives a real command for each condition of these theorems.

**Evidence from streams.** `LineRuns` and `GrokSpan` turn shown text into credited line spans;
`AgyStream`, `ClaudeStream`, `GrokTurn` and `Journal` are the event-driven parsers that pair calls
with results, as classes whose methods are proved against pure step functions, and what a whole
stream leaves in each record is then stated from the events that bear on it, named by their
`Positions`.

**Fleets.** `Fleet` is the workflow, under every outcome of every activity and every moment of
cancellation; `AbortLedger` is the ledger update it aborts with, under every database fault;
`FleetLedger` puts the two together.

**Sessions.** `Session`, `Replay` and `WorkerKeys` cover publication of turns, the event replay
buffer, and the keys of the worker registry.

## What the proofs found

Each of these is stated by the members named, an exact condition and an input.

- The guard of AND chains looks at the raw first word of a link. `'exit' 0 && cat F` passes it and F
  is credited, though the shell exits. So do a redirection or an expansion before the command word, a
  built-in the guard does not list (`bye`, `chdir`, `unsetopt`, ...), and a built-in in a later stage
  of a pipeline, which zsh runs in the shell itself (`GuardSufficesExactly`, `QuotedExitIsCredited`).
  A chain then exits zero having run nothing after that link, and bears out the segments up to it
  only (`SegmentSoundExactly`).
- A word that starts with `=` is taken for a file's name, though zsh puts the path of a command
  there: `cat =ls` is credited with the file `=ls` (`EqualsWordIsCredited`). A word with an unquoted
  tilde is credited likewise; neither is a plain word here.
- A `;` sequence that ends in a pipeline has the status of the pipeline's last stage, so it is
  credited although the file is missing: `cat F; cat F | sed -n '1,2p'` (`SequenceSoundExactly`,
  `PipelineHidesMissing`).
- The unwrapper judges the text between the quotes of `sh -c "..."`, but the outer shell expands it
  first when it holds `$`, a backquote or a backslash that escapes (`WrapperSoundExactly`,
  `ExpandedScriptIsCredited`).
- Unwrapping the result of `normalize_wrapped_script` is not always the identity, as its comment has
  it: a joined script that is a shell call is unwrapped again (`NormalizedUnwrapsAgain`).
- The unwrapper takes any flag that ends in `c`. `sh -nc 'cat F'` is credited with F, and `-n` runs
  nothing (`WrapperSoundExactly`, `UnrunScriptIsCredited`).
- `nl` does not show its logical-page delimiter lines, and where it prints nothing for one it shifts
  the window that `sed` then cuts; a credited `nl` read is borne out exactly when the file is clear of
  them (`RunCredited`, `DroppedWindowDelivers`, `NlDeliversExactly`).
- The parser reads `sed -n 'N,+Mp'` as lines N to M; GNU `sed` prints N to N+M. Never more is
  credited than shown, but more may be printed than budgeted (`SedAgrees`, `BareWindowExactly`,
  `RelativeEndExceeds`).
- A script that starts with `+` is credited and `sed` rejects it: harmless in an AND-list, where the
  call then fails, but masked in a `;` sequence whose last read succeeds (`SequenceRanSound`,
  `SignedScriptIsMasked`).
- `whole_file_read_operand` unwraps twice and the classifier once, so an operand it names is hidden
  from the classifier exactly when the text is wrapped twice (`OperandHiddenExactly`,
  `DoubleWrapIsHidden`).
- A tool that ends an open last line itself, as GNU `nl` and BSD `sed` do, exceeds the budget by that
  one byte exactly when every line fills its bound (`NlExactly`, `CatPipeExactly`, `NlPipeExactly`,
  `SedPipeExactly`, `ClosedLineExceeds`, `ClosedPipeExceeds`); an `nl` that drops delimiter lines can
  exceed a window's budget (`DroppedDelimiterExceeds`).
- A grok span whose last line number passes 64 bits wraps where overflow is not trapped, and does not
  hold the lines read (`SpanLinesExactly`).
- A grok call reported completed and then failed keeps its lines and output (`StepEarnsExactly`,
  `EarnedThroughoutExactly`, `OverturnedKeepsOutput`).
- `replay_since(u64::MAX)` wraps to zero where overflow is not trapped; and a client number from
  before the log began is told to refresh although nothing was evicted (`ReplayExact`,
  `UnanswerableNumbers`). A buffer of capacity 0 holds one event (`HeldIsSuffix`).
- A key that ends in `::` is vouched for by the scrub and passed over by the migration
  (`ReadingsAgreeExactly`, `ReadingsDisagree`); an anonymous key is vouched for exactly when its
  agent or directory holds `::` or their colons meet it, against the comment that it never is
  (`AnonymousVouchedExactly`, `AnonymousIsVouched`).
- A fleet that completes over repeated task ids leaves the later members `running`
  (`InFlightExactly`, `RepeatedIdLeavesRunning`).
- A finalize that writes its row and then fails leaves a failed run whose row says `done`; so with any
  row already finished (`LedgerTellsTheEnding`, `DoneRowStays`).
- A fault in the second ledger update leaves a fleet `cancelled` or `failed` with tasks still in
  flight, and the activity's error is not retried (`StrandedExactly`, `StrandedByFault`).

## Model

| member | source | states |
|---|---|---|
| `ShellSplit.SplitUnquoted` | daemon/crates/agent-adapter/src/codex.rs:308-340 | the scanning loop computes the specification: the trimmed non-empty pieces between unquoted separators, or the whole trimmed text when a quote is left open |
| `ShellSplit.SplitExact` | daemon/crates/agent-adapter/src/codex.rs:308-340 | cuts fall at exactly the unquoted separators: every piece is quote-closed, none holds a further unquoted separator, and the pieces rebuild the text |
| `ShellSplit.PiecesRebuild` | daemon/crates/agent-adapter/src/codex.rs:308-340 | rejoining the raw pieces with the separator gives the text back, from any quote state |
| `ShellSplit.PiecesAreUncut` | daemon/crates/agent-adapter/src/codex.rs:308-340 | no unquoted separator is left inside a piece |
| `ShellSplit.PiecesAreClosed` | daemon/crates/agent-adapter/src/codex.rs:308-340 | every piece of a quote-balanced text closes the quotes it opens |
| `ShellSplit.TrimIsIgnored` | daemon/crates/agent-adapter/src/codex.rs:308-340 | trimming a balanced text first changes none of its links |
| `ShellSplit.OneScanIsTwo` | daemon/crates/agent-adapter/src/codex.rs:374-377 | scanning for a set of separators and one more is splitting by the set and then each piece by the other |
| `ShellSplit.SplittersAgreeWithGuard` | daemon/crates/agent-adapter/src/codex.rs:260-304 | on balanced text, splitting at `&&`, then `;`, then newline gives exactly the non-empty links of the guard's single scan |
| `ShellSplit.SequenceLinks` | daemon/crates/agent-adapter/src/codex.rs:374-377 | splitting at `;` and then at newline is one scan for both |
| `ShellSplit.ScanLinks` | daemon/crates/agent-adapter/src/codex.rs:271-299 | the guard's loop stops iff an unquoted parenthesis or brace occurs, and otherwise collects all links |
| `ShellSplit.ChainLinksAreUnprovable` | daemon/crates/agent-adapter/src/codex.rs:260-304 | refuses iff there is a heredoc, a line continuation, an unquoted grouping, or a link with an unsafe first word or an assignment |
| `QuoteJoin.JoinAdjacentQuotes` | daemon/crates/agent-adapter/src/codex.rs:86-112 | the nested loops compute the joining function, every error exit included |
| `QuoteJoin.JoinInvertsRender` | daemon/crates/agent-adapter/src/codex.rs:86-112 | joining the rendering of any list of quoted pieces gives their contents back |
| `QuoteJoin.AcceptedIsRendered` | daemon/crates/agent-adapter/src/codex.rs:86-112 | every accepted word is the rendering of some list of pieces with those contents |
| `QuoteJoin.JoinedAsTheShellReads` | daemon/crates/agent-adapter/src/codex.rs:86-112 | what is accepted equals the word's quote removal under sections 2.2.1 to 2.2.3 of the shell language, with no expansion in it |
| `QuoteJoin.JoinExact` | daemon/crates/agent-adapter/src/codex.rs:86-112 | acceptance with a text iff some pieces render to the word with that text, and then quote removal gives the same |
| `ShellWrapper.UnwrapExactly` | daemon/crates/agent-adapter/src/codex.rs:30-62 | unwrapping a shell call gives back its script, whatever the script says, unless the program's name holds the flag's text, and then the whole command |
| `ShellWrapper.WrapperRunsScript` | daemon/crates/agent-adapter/src/codex.rs:30-62 | a wrapper whose script is literal in its quotes, and whose flag's letters let the shell run it as it stands, has the status, the files and the output of the text the parsers judge |
| `ShellWrapper.WrapperIsAProgram` | daemon/crates/agent-adapter/src/codex.rs:30-62 | any other wrapper is a program of its own, about which the judged text says nothing: the outer shell expands the text, the flag holds `n` or a letter of unknown effect, or a sequence may stop early |
| `NormalizedScript.NormalizedExactly` | daemon/crates/agent-adapter/src/codex.rs:64-80 | a call whose script is recorded as quoted pieces is replaced by their joined text, which is its quote removal, unless the plain unwrapper takes it |
| `NormalizedScript.NormalizedRuns` | daemon/crates/agent-adapter/src/codex.rs:64-80 | such a call has the status, the files and the output of the joined text that is judged in its place |
| `NormalizedScript.NormalizedUnwrapsAgain` | daemon/crates/agent-adapter/src/codex.rs:64-80 | a joined script that is itself a shell call is unwrapped once more, against the comment that unwrapping the result is the identity |
| `ReadParser.WholeFileReaderWithOneOperand` | daemon/crates/agent-adapter/src/codex.rs:687-746 | the tokenizing loop computes the reading whose accepted words `ReaderExactly` gives |
| `ReadParser.ReadTokens` | daemon/crates/agent-adapter/src/codex.rs:706-745 | the loop over the tokens of one reader computes that reading, decoration included |
| `ReadShapes.ReaderExactly` | daemon/crates/agent-adapter/src/codex.rs:687-746 | the words accepted are exactly those of a `cat` or `nl`, by any path, with any list of `-n -b -v -e -t`, or of `-ba -bt -bn` and widths from 1 to 2^32-1, around one operand in any quotes that is not empty and starts with no dash; credited are that operand and what those flags add |
| `ReadParser.NlNumberingFilter` | daemon/crates/agent-adapter/src/codex.rs:562-584 | accepts iff every flag is one of the numbering flags, a positive width, or a first number at most the window's start; the width is the last one given |
| `ReadShapes.NumberingExactly` | daemon/crates/agent-adapter/src/codex.rs:562-584 | the stages accepted are exactly an `nl`, by any path, with any list of body styles, widths of at least 1 and first numbers up to the window's start; the width is the last one given, or 6 |
| `ReadShapes.ScriptExactly` | daemon/crates/agent-adapter/src/codex.rs:646-666 | the scripts accepted are exactly a line, a range of lines and a line to the end, in any quotes or none, with or without plus signs, each denoting that window |
| `SedScripts.ParseInvertsScript` | daemon/crates/agent-adapter/src/codex.rs:646-666 | every window, written as a script in either quotes or none, is read back as that window |
| `SedScripts.ParseInvertsLine` | daemon/crates/agent-adapter/src/codex.rs:646-666 | a single address is the window of that line |
| `SedScripts.TwoParse` | daemon/crates/agent-adapter/src/codex.rs:646-666 | which window any two addresses denote, whatever their spelling |
| `ReadParser.FindSequenceOfReads` | daemon/crates/agent-adapter/src/codex.rs:370-403 | the guard, the minimum of two links and the loop of one operand, in one function, of which `SequenceExactly` says what it accepts |
| `ReadParser.JudgeLinks` | daemon/crates/agent-adapter/src/codex.rs:378-402 | the loop carrying one operand accepts iff some single operand fits every link |
| `JoinedLinks.SplitExactly` | daemon/crates/agent-adapter/src/codex.rs:374-377 | the pieces of a balanced text are exactly those that close their quotes, hold no separator outside them, and give the text when joined by semicolons and newlines |
| `JoinedLinks.ChainSplits` | daemon/crates/agent-adapter/src/codex.rs:228-254 | pieces that hold no `&&` outside their quotes, joined by it, are split into just those pieces |
| `JoinedLinks.GuardRefusesExactly` | daemon/crates/agent-adapter/src/codex.rs:260-304 | the guard refuses exactly a heredoc, a continued line, a parenthesis or brace outside quotes, and a link whose first word is listed or holds an equals sign |
| `JoinedLinks.GuardedWords` | daemon/crates/agent-adapter/src/codex.rs:261-268 | the list holds exactly the words the shells reserve or run themselves, but for the 28 named |
| `CreditExact.WindowExactly` | daemon/crates/agent-adapter/src/codex.rs:519-554 | a command is credited with a window exactly when its text, out of its wrapper, is clean and writes one of the three forms: the file, the window and the decoration are those written |
| `CreditExact.WholeExactly` | daemon/crates/agent-adapter/src/codex.rs:175-184 | a command is credited with a whole file exactly when its text, out of its wrapper, is clean and has the words of a reader |
| `CreditExact.TypedReadIsCredited` | daemon/crates/agent-adapter/src/codex.rs:687-746 | every `cat` and `nl` with any of its flags around one file, typed with any spaces, is credited with all of that file |
| `CreditExact.TypedCutIsCredited` | daemon/crates/agent-adapter/src/codex.rs:623-644 | every `sed -n` of a window on a file, typed with any spaces, is credited with that window of it |
| `CreditExact.TypedPipeIsCredited` | daemon/crates/agent-adapter/src/codex.rs:519-554 | every such reader piped to a `sed -n` window, and every such window piped to a numbering `nl`, typed with any spaces, likewise |
| `CreditExact.SequenceExactly` | daemon/crates/agent-adapter/src/codex.rs:370-403 | a text is taken for a sequence exactly when the guard passes it and it is pieces joined by semicolons or newlines, two or more not blank, each a read of one file or a plain echo, the last a read, with no list operator anywhere; and its links are those pieces, trimmed |
| `CreditExact.SequenceSegments` | daemon/crates/agent-adapter/src/codex.rs:362-377 | the segments of such a command are all its links |
| `CreditExact.ChainExactly` | daemon/crates/agent-adapter/src/codex.rs:228-254 | the segments of a chain the guard passes are its links, trimmed, the empty ones left out |
| `CreditExact.ChainCredits` | daemon/crates/agent-adapter/src/codex.rs:228-254 | so every link of such a chain, reads among them, is judged as it is alone |
| `CreditExact.ClassifierExactly` | daemon/crates/agent-adapter/src/codex.rs:768-824 | a segment is classified as a read exactly when it is credited with a window, or has no separator, pipe or output redirection, a listed reader for a program and no in-place flag |
| `ReadParser.ClassifierKeepsCredits` | daemon/crates/agent-adapter/src/codex.rs:754-825 | if any segment yields a whole read or a window, the command is classified as reading file contents |
| `ReadParser.OperandHiddenExactly` | daemon/crates/agent-adapter/src/codex.rs:158-172 | an operand is hidden from the classifier iff the text is still a shell call after one unwrap |
| `ReadSoundness.LexPlain` | daemon/crates/agent-adapter/src/codex.rs:603-611 | on plain words, splitting at whitespace and stripping quotes gives the shell's own words |
| `ReadSoundness.SedAgrees` | daemon/crates/agent-adapter/src/codex.rs:646-666 | the credited window lies in the printed one; `sed` rejects iff the first address is signed; equal iff no address is signed; a relative end prints that many lines more |
| `ReadSoundness.RunWrapped` | daemon/crates/agent-adapter/src/codex.rs:30-46 | a link that is a shell call runs its one-stage script and shows what it shows |
| `Delivery.SedDelivers` | daemon/crates/agent-adapter/src/codex.rs:519-554 | a window of the file, or of what `cat` prints, delivers every window it covers |
| `Delivery.NlDeliversExactly` | daemon/crates/agent-adapter/src/codex.rs:668-746 | `nl` delivers the whole file iff no line is a logical-page delimiter |
| `Delivery.SedNlDeliversExactly` | daemon/crates/agent-adapter/src/codex.rs:556-584 | `sed` piped to `nl` delivers the window iff none of its lines is a delimiter |
| `Delivery.BlankWindowDelivers` | daemon/crates/agent-adapter/src/codex.rs:519-554 | a window of an `nl` that prints an empty line for a delimiter is delivered iff none is in it |
| `Delivery.DroppedWindowDelivers` | daemon/crates/agent-adapter/src/codex.rs:519-554 | a window of an `nl` that prints nothing for a delimiter is delivered iff no line up to its end is one |
| `ReadTheorems.RunWhole` | daemon/crates/agent-adapter/src/codex.rs:175-184 | a credited whole read changes nothing, succeeds and shows the file iff its operand is readable, and delivers it iff `nl` meets no delimiter |
| `ReadTheorems.RunWindow` | daemon/crates/agent-adapter/src/codex.rs:519-554 | a credited bare window changes nothing, and succeeds and delivers its window iff its operand is readable and its script unsigned |
| `ReadTheorems.RunPiped` | daemon/crates/agent-adapter/src/codex.rs:519-554 | a credited pipeline changes nothing, whatever its status; it shows the file iff that is readable and its script unsigned, and delivers its window iff the file is clear where `nl` would change it |
| `ReadTheorems.RunCredited` | daemon/crates/agent-adapter/src/codex.rs:158-192 | the three forms together, for every credited plain link |
| `ReadTheorems.PlainOperandIsCredited` | daemon/crates/agent-adapter/src/codex.rs:158-172 | what the operand parser names from a plain link is the whole file credited |
| `GuardExact.GuardedLinkExact` | daemon/crates/agent-adapter/src/codex.rs:256-304 | a link the guard passes may change the shell iff a stage's command word is not literal, is a quoted built-in, is a keyword the guard does not list, or is one where the guard does not look |
| `GuardExact.GuardSufficesExactly` | daemon/crates/agent-adapter/src/codex.rs:256-304 | a link the guard passes leaves every shell running and as it was, in every world, iff none of its stages evades it |
| `GuardEscape.TextMirrors` | daemon/crates/agent-adapter/src/codex.rs:260-304 | every run of any text, shell calls inside it included, is mirrored where whatever may do anything ends the shell with zero: it succeeds there if it can anywhere, on the files it names |
| `GuardEscape.CanSucceedExactly` | daemon/crates/agent-adapter/src/codex.rs:228-304 | of the links that cannot change the shell and are no shell call, exactly those never succeed whose `sed` rejects its script |
| `ReadTheorems.ZeroRanTo` | daemon/crates/agent-adapter/src/codex.rs:228-254 | an AND-list that exits zero ran every link up to the first that may end the shell, that one included, and each of them succeeded |
| `ReadTheorems.ChainRanSound` | daemon/crates/agent-adapter/src/codex.rs:228-254 | if an AND-list the guard passes exits zero and no link before segment j evades the guard, every segment up to j ran and succeeded, and a plain credited one showed its file, to the extent it is clear, iff that was readable and its script valid, which without a pipeline was so; whatever other links did to the files |
| `ReadTheorems.EvadedAt` | daemon/crates/agent-adapter/src/codex.rs:228-304 | if link k is the first to evade the guard and the links before it can succeed, the chain exits zero in some world, on all files they name, having run links 0 to k only |
| `ReadTheorems.SegmentSoundExactly` | daemon/crates/agent-adapter/src/codex.rs:228-304 | a zero exit bears segment j out in every world and on all files iff no link before it evades the guard behind links that can all succeed |
| `ReadTheorems.AndChainSound` | daemon/crates/agent-adapter/src/codex.rs:228-254 | the command as run, spaces around it included: if it runs its text, one AND-list the guard passes, and exits zero, the credit of every segment up to the first evading link is borne out by something it showed |
| `ReadTheorems.WrapperSoundExactly` | daemon/crates/agent-adapter/src/codex.rs:30-62 | a credit of a wrapped chain that no evading link stands before is borne out in every world iff the script is literal in its quotes and every letter of the flag lets the shell run it |
| `ReadTheorems.QuietSequence` | daemon/crates/agent-adapter/src/codex.rs:342-369 | in a sequence of links that change nothing each link runs from the first files, and the status is the last one's |
| `ReadTheorems.SequenceRan` | daemon/crates/agent-adapter/src/codex.rs:342-403 | whatever its status, an accepted sequence shows everything it is credited with, each window to the extent the file is clear, iff the one file it names is readable or no script of it is valid |
| `ReadTheorems.SequenceSucceeds` | daemon/crates/agent-adapter/src/codex.rs:342-403 | it exits zero iff its last read shows its file, or is a pipeline whose last stage accepts its script |
| `ReadTheorems.SequenceRanSound` | daemon/crates/agent-adapter/src/codex.rs:342-403 | an accepted sequence that exits zero, the status of whose last read tells of its file, names one readable file; each credited read, pipelines included, showed it iff `sed` accepts its script, and delivered its window iff the file is clear |
| `ReadTheorems.SequenceSoundExactly` | daemon/crates/agent-adapter/src/codex.rs:342-403 | a zero exit bears a sequence out in every world iff its last read is no pipeline, or one whose `sed` rejects its script, or no script of it is valid |
| `ReadTheorems.SequenceSound` | daemon/crates/agent-adapter/src/codex.rs:342-403 | the same of the command as run |
| `Witnesses.QuotedExitIsCredited` | daemon/crates/agent-adapter/src/codex.rs:256-304 | `'exit' 0 && cat F` passes the guard, credits F, and may exit zero showing nothing |
| `Witnesses.EqualsWordIsCredited` | daemon/crates/agent-adapter/src/codex.rs:687-746 | `cat =ls`, and any such name: the file `=ls` is credited, and the command may exit zero showing nothing of it |
| `Witnesses.PipelineHidesMissing` | daemon/crates/agent-adapter/src/codex.rs:342-403 | `cat F; cat F` piped to `sed -n '1,2p'`: all of F is credited, and the call exits zero whether F is there or not |
| `Witnesses.ExpandedScriptIsCredited` | daemon/crates/agent-adapter/src/codex.rs:30-62 | `sh -c "sed -n '1,$p' F; sed -n '1,2p' F"` credits all of F and may exit zero showing nothing |
| `Witnesses.UnrunScriptIsCredited` | daemon/crates/agent-adapter/src/codex.rs:49-62 | `sh -nc 'cat F'` credits F, and its script need not run |
| `Witnesses.SignedScriptIsMasked` | daemon/crates/agent-adapter/src/codex.rs:342-403 | `sed -n '+1p' F; cat F` exits zero whenever F is readable, and its first, credited link shows nothing |
| `Witnesses.DoubleWrapIsHidden` | daemon/crates/agent-adapter/src/codex.rs:158-172 | `sh -c "sh -c 'cat F'"`: the operand parser names F, the classifier sees no read |
| `PrintedSize.NlAgrees` | daemon/crates/agent-adapter/src/codex.rs:668-686 | the byte-level `nl` and the one of the shell semantics print as many lines, and each carries the same source line or stands for a delimiter |
| `PrintedExact.CatTight` | daemon/crates/agent-adapter/src/codex.rs:207-222 | `cat` with any flags prints at most the sum of the bound over its lines, and all of it iff every line fills its bound: each byte the bound allows four for takes four, an end is marked where ends are, and a number asked for is printed as wide as the source line's |
| `PrintedExact.BareWindowExactly` | daemon/crates/agent-adapter/src/codex.rs:623-666 | a bare window exceeds its budget iff its end is relative and lines follow it, or an open last line is closed |
| `PrintedExact.NoOverrunExactly` | daemon/crates/agent-adapter/src/codex.rs:646-666 | nothing is printed past the credited window iff the second address is not relative or no lines are there |
| `PrintedExact.NlTight` | daemon/crates/agent-adapter/src/codex.rs:207-222 | `nl` from any state, counting no higher than the source, fits, delimiters and numbering resets included, and uses all iff every line is no delimiter and its column as wide as its source line's number makes it |
| `PrintedExact.NlExactly` | daemon/crates/agent-adapter/src/codex.rs:687-746 | `nl` exceeds its budget, by the closing byte alone, iff it closes an open file and every line fills its bound |
| `PrintedExact.CatPipeExactly` | daemon/crates/agent-adapter/src/codex.rs:519-554 | `cat` piped to `sed`, against the decoration and window `command_read_range` returns: with nothing printed past the window the budget is exceeded iff an open last line is closed and every line of the window fills its bound; with lines printed past it, it is whenever those all fill |
| `PrintedExact.NlPipeExactly` | daemon/crates/agent-adapter/src/codex.rs:519-554 | the same for `nl` piped to `sed`, where no line up to the window's end is dropped |
| `PrintedExact.SedPipeExactly` | daemon/crates/agent-adapter/src/codex.rs:556-584 | the same for `sed` piped to every `nl` the parser accepts, whose first number is at most the window's start |
| `PrintedExact.VettedReaderExactly` | daemon/crates/agent-adapter/src/codex.rs:687-746 | every reader the parser accepts, against the decoration returned: `cat` always fits and uses all iff every line fills its bound, `nl` exactly as above |
| `PrintedExact.ClosedLineExceeds` | daemon/crates/agent-adapter/src/codex.rs:207-222 | the file `a` with no newline, under an `nl -w1` that closes it: four bytes against three |
| `PrintedExact.ClosedPipeExceeds` | daemon/crates/agent-adapter/src/codex.rs:519-554 | the same file under `cat -n F` piped to a `sed -n 1p` that closes it: nine bytes against eight |
| `PrintedExact.RelativeEndExceeds` | daemon/crates/agent-adapter/src/codex.rs:646-666 | `sed -n 1,+1p` on two lines: four bytes against two |
| `PrintedExact.DroppedDelimiterExceeds` | daemon/crates/agent-adapter/src/codex.rs:668-686 | a file on which an `nl` that drops delimiter lines prints more than the window's budget |
| `LineRuns.NumberedLineRuns` | daemon/crates/agent-adapter/src/types.rs:103-115 | the sorting and joining loop computes the runs; `last + 1` stays in range |
| `LineRuns.JoinRuns` | daemon/crates/agent-adapter/src/types.rs:107-114 | the in-place loop over ascending numbers, against the recursive definition |
| `LineRuns.RunsExact` | daemon/crates/agent-adapter/src/types.rs:94-115 | runs are ascending, disjoint and separated by gaps, and cover a number iff some line is marked with it |
| `LineRuns.CanonicalIsUnique` | daemon/crates/agent-adapter/src/types.rs:103-115 | no other list of separated runs covers the same lines |
| `GrokSpan.MarkedLine` | daemon/crates/agent-adapter/src/grok.rs:165-169 | a padded, numbered, marked line has that number, and stripping it leaves the body |
| `GrokSpan.MarkedShape` | daemon/crates/agent-adapter/src/grok.rs:165-169 | every line with a marker is padding, digits, a mark and its stripped body |
| `GrokSpan.CreditIsRendered` | daemon/crates/agent-adapter/src/grok.rs:127-162 | a span that passes the checks is a rendering: each shown line is its raw line or its declared truncation, each marker at its true position |
| `GrokSpan.RenderedIsCredited` | daemon/crates/agent-adapter/src/grok.rs:127-162 | any rendering that marks the first line and any others, no unmarked line looking numbered, passes the checks |
| `GrokSpan.SpanCreditExact` | daemon/crates/agent-adapter/src/grok.rs:127-181 | the whole span, from the tool's offset or from 1 where it gives none, is credited iff the shown text renders the raw text; otherwise exactly the numbered lines |
| `GrokSpan.SpanLinesExactly` | daemon/crates/agent-adapter/src/grok.rs:148-161 | a credited span holds the lines read and no others iff its last number fits in 64 bits; otherwise the last line read is not in it |
| `AgyStream.AgyStreamParser.HandleTool` | daemon/crates/agent-adapter/src/agy_stream.rs:236-342 | the records and the open table after one update are those of the step function |
| `AgyStream.RecordsExact` | daemon/crates/agent-adapter/src/agy_stream.rs:236-342 | every record of every run, from its updates alone: one for each update that finds its step not running; success iff its last update says done, failure iff it says error, none while it runs; the output iff a done `run_command`; the last duration and parameters given, and the kind they make |
| `AgyStream.FirstErrorExact` | daemon/crates/agent-adapter/src/agy_stream.rs:275-283 | the failure kept is that of the first update that says error, its message cut to 200 characters |
| `AgyStream.HandleKeepsSound` | daemon/crates/agent-adapter/src/agy_stream.rs:236-342 | every update keeps the table: open steps distinct, each entry at the last record of its step, unset exactly there |
| `AgyStream.StepsDoNotInterfere` | daemon/crates/agent-adapter/src/agy_stream.rs:236-342 | the records of one step are exactly those of running the parser on that step's updates alone |
| `AgyStream.UnsetIffOpen` | daemon/crates/agent-adapter/src/agy_stream.rs:236-342 | in every run a record has no verdict iff an open step points at it |
| `AgyStream.VerdictsStand` | daemon/crates/agent-adapter/src/agy_stream.rs:236-342 | a record with a verdict is never changed again |
| `AgyStream.OutputNeedsSuccess` | daemon/crates/agent-adapter/src/agy_stream.rs:268-302 | in every run a record holds an output only if its command succeeded |
| `ClaudeStream.ClaudeStreamParser.OnAssistant` | daemon/crates/agent-adapter/src/claude_stream.rs:205-259 | the loop over blocks runs the step function on each |
| `ClaudeStream.ClaudeStreamParser.OnUser` | daemon/crates/agent-adapter/src/claude_stream.rs:265-339 | the loop over results runs the step function on each |
| `ClaudeStream.RecordsExact` | daemon/crates/agent-adapter/src/claude_stream.rs:205-339 | every record of every stream, from its events alone: one for each use, in order, with a verdict iff a result of its id comes before another use of it; true iff that first result has no flag or a false one; lines and output exactly those of a success of the right kind |
| `ClaudeStream.FlagDecides` | daemon/crates/agent-adapter/src/claude_stream.rs:280-320 | a Bash call whose result sets `is_error` fails and keeps no output; with it false the call succeeds and keeps its content |
| `ClaudeStream.TextsExact` | daemon/crates/agent-adapter/src/claude_stream.rs:205-228 | the texts collected are the assistant's non-empty ones, in order |
| `ClaudeStream.CallsDoNotInterfere` | daemon/crates/agent-adapter/src/claude_stream.rs:229-339 | the records of one call id are exactly those of running the parser on that id's blocks alone |
| `ClaudeStream.VerdictsStand` | daemon/crates/agent-adapter/src/claude_stream.rs:265-339 | a record with a verdict is never changed again |
| `ClaudeStream.CreditNeedsSuccess` | daemon/crates/agent-adapter/src/claude_stream.rs:265-339 | lines or output are credited only to a call that succeeded |
| `GrokTurn.GrokStreamParser.ParseLine` | daemon/crates/agent-adapter/src/grok.rs:279-523 | one event changes the parser's fields as the step function says |
| `GrokTurn.GrokStreamParser.OnEnd` | daemon/crates/agent-adapter/src/grok.rs:460-499 | the `end` branch, once only |
| `GrokTurn.GrokStreamParser.UpdateToolCall` | daemon/crates/agent-adapter/src/grok.rs:374-435 | the update of one call record and the event it logs |
| `GrokTurn.AnswerExact` | daemon/crates/agent-adapter/src/grok.rs:287-311 | the answer is the concatenation of the text data before the first `end` |
| `GrokTurn.OneCompletion` | daemon/crates/agent-adapter/src/grok.rs:437-499 | at most one completion event, present iff an `end` was seen, always carrying the current usage |
| `GrokTurn.UsageExact` | daemon/crates/agent-adapter/src/grok.rs:437-499 | the usage is that of the last event to bring any, a usage report or the first `end`, with the number of calls started before it; none where none did |
| `GrokTurn.EndExact` | daemon/crates/agent-adapter/src/grok.rs:460-499 | the stop reason and session are those of the first `end` |
| `GrokTurn.ErrorExact` | daemon/crates/agent-adapter/src/grok.rs:500-515 | the error kept is the last one reported |
| `GrokTurn.LogExact` | daemon/crates/agent-adapter/src/grok.rs:279-523 | the log has one entry for each event that is logged, in order, of the state and detail that event comes to |
| `GrokTurn.TerminationExact` | daemon/crates/agent-adapter/src/grok.rs:460-523 | Incomplete iff no terminal event; otherwise as the last error or turn-limit event says, and where there is none as the first `end` says |
| `GrokTurn.OnlyTerminalsDecide` | daemon/crates/agent-adapter/src/grok.rs:460-523 | the parser terminates the same on the terminal events alone |
| `GrokTurn.UpdateExact` | daemon/crates/agent-adapter/src/grok.rs:374-435 | a verdict lands on the last open call of its id, else on the last of that id, whenever there is one, and on no other record |
| `GrokTurn.RecordsExact` | daemon/crates/agent-adapter/src/grok.rs:313-435 | every record of every stream: one for each start, in order, with what it said; its success is that of the last verdict that lands on it, its lines and output those of the last that completed it |
| `GrokTurn.CallsDoNotInterfere` | daemon/crates/agent-adapter/src/grok.rs:319-435 | the records of one call id are exactly those of running the parser on that id's events alone |
| `GrokTurn.StepEarnsExactly` | daemon/crates/agent-adapter/src/grok.rs:387-420 | one event keeps lines and output with successful calls iff it is not a failed verdict for a call that already has them |
| `GrokTurn.EarnedThroughoutExactly` | daemon/crates/agent-adapter/src/grok.rs:387-420 | all through a stream lines and output stand only with calls that succeeded, iff no event of it overturns a credit that stands |
| `GrokTurn.OpenExact` | daemon/crates/agent-adapter/src/grok.rs:374-435 | how many calls of an id are open after any stream: a start opens one, a verdict closes one if any is open |
| `GrokTurn.CreditNeedsSuccess` | daemon/crates/agent-adapter/src/grok.rs:387-420 | on every stream whose failed verdicts each arrive with more starts than verdicts of their id, lines and output stand only with calls that succeeded, all through it |
| `GrokTurn.OverturnedKeepsOutput` | daemon/crates/agent-adapter/src/grok.rs:387-420 | a call completed and then failed keeps its output |
| `Journal.Walk` | daemon/crates/agent-adapter/src/mistral.rs:199-216 | the recursive walk appends the tool messages of the tree, in document order |
| `Journal.FoundExactly` | daemon/crates/agent-adapter/src/mistral.rs:199-216 | the messages collected are exactly the tool messages with no tool message around them, each once, in document order |
| `Journal.ToolMessageExactly` | daemon/crates/agent-adapter/src/mistral.rs:199-207 | a tool message is an object whose role is the text `tool` and that has a `tool_call_id` of any kind |
| `Journal.WindowExactly` | daemon/crates/agent-adapter/src/mistral.rs:241-250 | a body is credited exactly the lines it says were read, from the first where it gives no offset, iff their last number fits in 64 bits; where it does not, the window it wraps to |
| `Journal.ResultExactly` | daemon/crates/agent-adapter/src/mistral.rs:238-250 | a result is good iff its outcome is success; its lines are those its body, the first text of its content parsed, says were read, if good, and none if not |
| `Journal.ParsedExactly` | daemon/crates/agent-adapter/src/mistral.rs:217-220 | each line that parses is taken, in order, and no other |
| `Journal.CollectReads` | daemon/crates/agent-adapter/src/mistral.rs:217-252 | the loop over lines gives one result per distinct non-empty id of a file read, in order of first appearance |
| `Journal.ReadsExactly` | daemon/crates/agent-adapter/src/mistral.rs:217-252 | the results are, in order, those of exactly the messages of the whole journal that are file reads and the first message of their non-empty id |
| `Journal.TwoRequestsTwoReads` | daemon/crates/agent-adapter/src/mistral.rs:188-252 | a request that repeats an earlier good read and adds a failed one: two results, the first with the lines it read and the second with none |
| `Journal.MistralParser.IngestJournal` | daemon/crates/agent-adapter/src/mistral.rs:196-264 | the i-th file-read record takes the i-th distinct read result; every other record, and those beyond the results, stay as they were |
| `Journal.PairingExactly` | daemon/crates/agent-adapter/src/mistral.rs:253-264 | the k-th file-read record takes the k-th result's verdict and lines and nothing else of it changes; every other record stays as it was |
| `Journal.RepeatedLinesChangeNothing` | daemon/crates/agent-adapter/src/mistral.rs:217-234 | lines whose messages all repeat earlier ids, inserted anywhere after them, change no result |
| `Journal.ExtendedJournalSameRecords` | daemon/crates/agent-adapter/src/mistral.rs:196-264 | a journal extended with such lines leaves every record as the shorter one did |
| `Journal.LaterLinesOnlyAdd` | daemon/crates/agent-adapter/src/mistral.rs:217-252 | a longer journal's results extend the shorter one's |
| `Journal.LinesNeedSuccess` | daemon/crates/agent-adapter/src/mistral.rs:238-251 | every result with lines is one whose outcome was success |
| `Journal.IngestAgain` | daemon/crates/agent-adapter/src/mistral.rs:253-263 | ingesting again with extended results is ingesting once; with the same results nothing changes |
| `Fleet.FleetWorkflow.Execute` | daemon/crates/fleet-temporal/src/fleet_workflow.rs:132-154 | members, activity history and ending of a run are those of the specification, for every world |
| `Fleet.FleetWorkflow.Drive` | daemon/crates/fleet-temporal/src/fleet_workflow.rs:157-229 | the driving half, every early exit included |
| `Fleet.FleetWorkflow.RecordOutcomes` | daemon/crates/fleet-temporal/src/fleet_workflow.rs:184-216 | the recording loop, cancelled members skipped and the first recording error ending it |
| `Fleet.FleetWorkflow.Sweep` | daemon/crates/fleet-temporal/src/fleet_workflow.rs:137-141 | every pending or running member becomes cancelled or failed; no other changes |
| `Fleet.HistoryExact` | daemon/crates/fleet-temporal/src/fleet_workflow.rs:132-229 | the whole activity history of every run in closed form |
| `Fleet.AbortOnceAndLast` | daemon/crates/fleet-temporal/src/fleet_workflow.rs:132-229 | every run that does not complete aborts exactly once, last, and a run that completes never; finalize is tried iff every run ended, every recording landed and no cancel was seen |
| `Fleet.OpeningExact` | daemon/crates/fleet-temporal/src/fleet_workflow.rs:157-207 | the history of a prepared fleet starts with prepare, a worker for each plan, and one recording of each member taken up whose run was not cancelled, with its output or its failure's text |
| `Fleet.EndedIsRecorded` | daemon/crates/fleet-temporal/src/fleet_workflow.rs:179-216 | unless a recording fails, every member whose run was not cancelled is recorded before finalize or abort, with its plan's id and agent and its own output or failure |
| `Fleet.CauseExact` | daemon/crates/fleet-temporal/src/fleet_workflow.rs:79-116 | what stops a run: a cancel iff the failure is one, its whole text for the reason, the failure itself to end with unless it is a cancel; and the abort that ends the run carries these |
| `Fleet.EndingExact` | daemon/crates/fleet-temporal/src/fleet_workflow.rs:132-229 | completion iff all went well, with the ledger's state and the members as they are; otherwise the abort's own failure, or cancelled iff the abort was told so, or the cause |
| `Fleet.InFlightExactly` | daemon/crates/fleet-temporal/src/fleet_workflow.rs:132-216 | a run leaves a member pending or running iff it completes over repeated task ids |
| `Fleet.MembersExact` | daemon/crates/fleet-temporal/src/fleet_workflow.rs:132-216 | every member of every prepared fleet: its plan's id and agent; for the first of its id the last landing recording of that id, done iff that answered done, the exit code and adoption of that run's own output; any other is untold: running, or how the fleet stopped |
| `Fleet.MembersTruthful` | daemon/crates/fleet-temporal/src/fleet_workflow.rs:132-216 | with distinct ids each member is done iff its own recording answered done and failed otherwise, with its own output's exit code and adoption; or, where none landed, how the fleet stopped |
| `Fleet.RepeatedIdLeavesRunning` | daemon/crates/fleet-temporal/src/fleet_workflow.rs:206-215 | two members of one task id, all well: the second is left running |
| `Fleet.CollectParts` | daemon/crates/fleet-temporal/src/fleet_workflow.rs:104-114 | the loop over a failure chain keeps each non-empty message where it first stands |
| `Fleet.PartsExact` | daemon/crates/fleet-temporal/src/fleet_workflow.rs:104-114 | every message that says anything reaches the text, each once, in the order they are first said |
| `Fleet.FailureTextExact` | daemon/crates/fleet-temporal/src/fleet_workflow.rs:104-116 | the text is these, separated by colons, or the failure's display where no message says anything |
| `FleetLedger.CallIsLastActivity` | daemon/crates/fleet-temporal/src/fleet_workflow.rs:134-150 | the abort a run ends with carries whether it is a cancel and the cause, as its last activity |
| `FleetLedger.LedgerTellsTheEnding` | daemon/crates/fleet-temporal/src/fleet_workflow.rs:132-154 | after every run that stops short, whatever the tables held: the row says how the run stopped iff it said so before or could still be written, and is otherwise as it was; the run ends cancelled or with its cause iff nothing was left running and no step failed, and then no task is in flight; else tasks are untouched and it ends with the abort's error |
| `FleetLedger.CancelledAgrees` | daemon/crates/fleet-temporal/src/fleet_workflow.rs:363-414 | the ledger says cancelled iff it did before, or the row was unfinished and reached, the run stopped as cancelled and nothing was left running; the run ends cancelled iff it stopped so and no fault came |
| `FleetLedger.DoneRowStays` | daemon/crates/fleet-temporal/src/fleet_workflow.rs:132-414 | a finalize that wrote the row and then failed: the run fails with its error and the ledger says done |
| `AbortLedger.Ledger.RecordAbort` | daemon/crates/fleet-temporal/src/fleet_workflow.rs:375-414 | both tables and the answer after an abort, for every database fault; Ok iff no problem and no fault |
| `AbortLedger.TerminalAbsorbs` | daemon/crates/fleet-temporal/src/fleet_workflow.rs:375-414 | a finished fleet keeps its row through any aborts |
| `AbortLedger.FleetRowExact` | daemon/crates/fleet-temporal/src/fleet_workflow.rs:375-414 | after any aborts the row of a fleet not done, failed or cancelled says what the first clean one says, else what the last to reach it says, state and reason spelled out, else is unchanged |
| `AbortLedger.FleetFrame` | daemon/crates/fleet-temporal/src/fleet_workflow.rs:375-414 | aborts of other fleets leave a fleet's row alone |
| `AbortLedger.CancelledExactly` | daemon/crates/fleet-temporal/src/fleet_workflow.rs:368-414 | `cancelled` is written iff the first abort without stop problems was one of a cancelled fleet |
| `AbortLedger.ProblemsMeanStopFailed` | daemon/crates/fleet-temporal/src/fleet_workflow.rs:384-393 | while every abort has stop problems the fleet is `stop_failed` |
| `AbortLedger.TasksExact` | daemon/crates/fleet-temporal/src/fleet_workflow.rs:384-413 | after any aborts a task is failed iff it was pending, claimed or in progress and its fleet had an abort with no problem and no fault; otherwise untouched |
| `AbortLedger.OkLeavesNoneInFlight` | daemon/crates/fleet-temporal/src/fleet_workflow.rs:407-413 | once an abort of a fleet answered Ok none of its tasks is in flight, then or later |
| `AbortLedger.StrandedExactly` | daemon/crates/fleet-temporal/src/fleet_workflow.rs:384-413 | an abort leaves a finished fleet with tasks in flight iff there were such tasks, its task update did not happen, and the fleet had finished before or its own row was written |
| `AbortLedger.StrandedByFault` | daemon/crates/fleet-temporal/src/fleet_workflow.rs:394-413 | one running fleet and task, and a fault in the task update |
| `Session.SessionState.PublishTurn` | daemon/crates/daemon-core/src/lib.rs:363-408 | the fields and the answer after one publication |
| `Session.PublishMoves` | daemon/crates/daemon-core/src/lib.rs:363-408 | a conflict iff the generation moved, changing nothing; anything else moves it on by one |
| `Session.OneWinPerGeneration` | daemon/crates/daemon-core/src/lib.rs:363-408 | of two applied turns the later one captured a strictly later generation |
| `Session.ReachableStates` | daemon/crates/daemon-core/src/lib.rs:363-408 | every state from a fresh session, from its winning turns: pending iff none; after the last success with an id, ready with it until the vendor first rejects it, then broken for that error's first line; with no such success, broken as the first win says; the generation counts the wins |
| `Session.AnswersExact` | daemon/crates/daemon-core/src/lib.rs:363-408 | a turn conflicts iff it does not hold the generation the wins have come to; it is not resumable iff it is a first win and a success with no id, naming its seat; else applied |
| `Session.ReachableIsCoherent` | daemon/crates/daemon-core/src/lib.rs:363-408 | ready means a stored id and no reason, broken a reason, pending no turn applied |
| `Replay.EventReplayBuffer.Push` | daemon/crates/daemon-core/src/replay.rs:79-91 | appends, dropping the oldest at capacity |
| `Replay.EventReplayBuffer.Replay` | daemon/crates/daemon-core/src/replay.rs:100-135 | the filtering loop, the range check and the empty case |
| `Replay.HeldIsSuffix` | daemon/crates/daemon-core/src/replay.rs:79-91 | after any pushes the buffer is exactly the end of the log that fits |
| `Replay.NewerIsSuffix` | daemon/crates/daemon-core/src/replay.rs:127-133 | of consecutive numbers the events after a number are the log from one position on |
| `Replay.ReplayNeverSkips` | daemon/crates/daemon-core/src/replay.rs:100-135 | on any ascending log, gaps included, events are returned only when none after the number is gone, and then all of them |
| `Replay.ReplayExact` | daemon/crates/daemon-core/src/replay.rs:100-135 | on consecutive numbers the reply is the log after the number, or out of range iff some such event is gone, for exactly the answerable numbers |
| `Replay.UnanswerableNumbers` | daemon/crates/daemon-core/src/replay.rs:100-135 | one held event, nothing evicted: clients at an earlier number and at the largest are told to refresh |
| `Replay.RunReplayBufferFill` | daemon/crates/daemon-core/src/lib.rs:736-783 | the fill loop pushes every event taken before the channel closes and keeps the maximum |
| `Replay.TakenExactly` | daemon/crates/daemon-core/src/lib.rs:736-783 | the events taken are all those received before the channel closes, in order, whatever is skipped between them |
| `Replay.PushAllIsHeld` | daemon/crates/daemon-core/src/lib.rs:736-783 | pushing a batch onto what a log left is what the longer log leaves |
| `Replay.HighestIsMax` | daemon/crates/daemon-core/src/lib.rs:770-771 | the mirror is the maximum of all numbers, whatever their order |
| `WorkerKeys.ReadingsAgreeExactly` | daemon/crates/agent-worker/src/lib.rs:98-108 | the migration carries a key's id iff the count from the left is at least two and the key does not end in the separator |
| `WorkerKeys.ReadingsDisagree` | daemon/crates/agent-worker/src/lib.rs:294-302 | a key the scrub keeps and the migration passes over |
| `WorkerKeys.CountTwo` | daemon/crates/agent-worker/src/lib.rs:103-104 | counting from the left reaches two iff there are two separators that do not overlap |
| `WorkerKeys.NameRecoveredExactly` | daemon/crates/agent-worker/src/lib.rs:51-56 | a name is read back from its key iff it holds no separator and no leading colon, for any agent and directory |
| `WorkerKeys.WorkerKeyRecovers` | daemon/crates/agent-worker/src/lib.rs:51-56 | a blank name gives the anonymous key; any other recoverable one is read back trimmed and vouched for |
| `WorkerKeys.AnonymousVouchedExactly` | daemon/crates/agent-worker/src/lib.rs:82-116 | an anonymous key is vouched for iff its agent or directory holds a separator, or their colons meet the one between them |
| `WorkerKeys.AnonymousIsVouched` | daemon/crates/agent-worker/src/lib.rs:98-108 | an anonymous worker in `/a::b` keeps its id |
| `WorkerKeys.NamedKeysShareExactly` | daemon/crates/agent-worker/src/lib.rs:41-56 | two recoverable named sessions share a key iff they have one trimmed name and their agents and directories, joined, are the same text |
| `WorkerKeys.KeysInjective` | daemon/crates/agent-worker/src/lib.rs:41-56 | agents without a colon share a key only for one directory and one name, or for one directory where both are anonymous |
| `WorkerKeys.ScrubUnvouchableSessions` | daemon/crates/agent-worker/src/lib.rs:98-116 | every entry stays, ids survive exactly under vouched keys, nothing else changes |
| `WorkerKeys.HydrateSessionIds` | daemon/crates/agent-worker/src/lib.rs:284-309 | one call per entry with an id and a carried name, each once, and the count is theirs |
| `WorkerKeys.ScrubThenHydrate` | daemon/crates/agent-worker/src/lib.rs:98-309 | the scrub takes nothing the migration would carry, and what it leaves under a key with a name is carried |

## Left out

- JSON decoding, stdout framing, channel emission and display strings: events arrive decoded, and the journal's JSON parser is a function parameter.
- Real processes, git, the Temporal SDK, SQLite, HTTP, WebSocket, PTY and tray code: activity outcomes, cancellation and database faults are nondeterministic inputs.
- Lock poisoning, `flock` locks and the interleaving of threads inside one locked method.
- Vendor tool-name tables, the shell-tool predicate and the vendor's session-rejection patterns: function parameters, so the theorems hold for any of them.
- The `parse_line` of codex, the kimi, qwen and gemini parsers, the batch forms and the wider `command_reads_whole_file`: each is one branch per case.
- Shell text with an open quote, a backslash that escapes, an unquoted `||`, `&` or `#`, or whitespace other than blanks and newlines: the semantics lets it do anything, and the theorems exclude it.
- Words with globs, unquoted tildes, a leading `=`, inner quotes or expansions, and a shell call inside a shell call: not plain links, so nothing is claimed about their credits.
- NormalizedScript.NormalizedRuns: a script word with escapes in its double quotes is outside the modelled text; there only `NormalizedExactly` is claimed, that the joined text is the argument the shell passes.
- ShellWrapper.WrapperIsAProgram: flag letters other than `acefhilmpuvxC`, such as `r` or `k`, and a sequence under `-e` or `-u`, are taken for a program of unknown effect, because they may change how the script runs.
- Aliases and functions a login shell brings with it, and bash's `printf -v`: a bare literal command word outside the lists of built-ins is taken for a program.
- Options after an operand are taken as options, as GNU does; a BSD `cat` takes them for files.
- Utilities are recognised by base name, as the parsers do; a program of the same name elsewhere on the path is outside the model.
- Pipelines in AND-lists: their status is the last stage's, so a zero exit bears their credit out only if the file was readable; `ChainRanSound` says so.
- PrintedExact.CatPipeExactly: with lines printed past the credited window, and room left unused in it, only the byte counts decide, and no condition is stated; so for the other two pipelines.
- PrintedExact.NlPipeExactly: for an `nl` that prints nothing for delimiter lines it covers files with no such line up to the window's end; a file with one that fails is given.
- AgyStream.AgyStreamParser.HandleTool: the cap on shown output and the list of working-state events are not modelled, because neither decides a record's verdict.
- ClaudeStream.ClaudeStreamParser.OnAssistant: the events pushed per block are not modelled.
- ClaudeStream.ClaudeStreamParser.OnUser: the cap on shown output and the events are not modelled.
- GrokTurn.GrokStreamParser.ParseLine: the total cost, the tool surface and stream emission are not modelled.
- GrokTurn.GrokStreamParser.OnEnd: the total cost is not modelled.
- GrokTurn.GrokStreamParser.UpdateToolCall: the cap on shown output is not modelled.
- Session.SessionState.PublishTurn: generations are unbounded, where the source's are 64 bits wide.
- Journal.MistralParser.IngestJournal: an object's fields are a list in iteration order.
- AbortLedger.Ledger.RecordAbort: the wording of database errors is not modelled.
- FleetLedger.LedgerTellsTheEnding: what the preparing, recording and finalizing activities write to the ledger before the abort is not modelled; the tables before the abort are arbitrary.
- WorkerKeys.HydrateSessionIds: two keys of one name both call the callback, in the map's order; which one it keeps is the callback's rule.
