# A verified model of the honeypot's deterministic core

This project models the parts of the honeypot whose behaviour is decided by code rather than by
the network, and proves what they promise. Bytes are `char`s (a `char` stands for the byte of its
code), paths are sequences of components, and Go's `int` is written out with wrap-around where the
source computes with attacker-chosen numbers (shell arithmetic).

| file | models |
|---|---|
| `Paths.dfy`, `Vfs.dfy`, `VfsListing.dfy`, `VfsOutcomes.dfy`, `VfsRuns.dfy`, `VfsAliases.dfy`, `VfsSession.dfy` | the copy-on-write filesystem session: overlay, tombstones, links, budgets |
| `PoolSteps.dfy`, `VfsWorld.dfy` | the process-wide overlay counter as a step system of concurrent sessions, and whole sessions running in it |
| `Parse.dfy`, `ParseLaws.dfy`, `Lists.dfy`, `Arith.dfy`, `Shell.dfy`, `ShellLaws.dfy`, `ExpandLaws.dfy`, `ShellObject.dfy` | the shell: tokenizer, parser, chain operators, expansion, substitution, arithmetic |
| `Echo.dfy`, `Loader.dfy`, `Caught.dfy` | `echo` and the echo-loader, from the typed line down to the overlay, and how it is judged |
| `Feed.dfy` | the resumable event stream over the growing log |
| `Analyze.dfy`, `Verdicts.dfy`, `Overview.dfy` | the per-source analysis, the one-pass overview, the rollups, the drawer |
| `Telnet.dfy`, `Tty.dfy` | the telnet IAC reader and the SSH line discipline |
| `Seccomp.dfy` | the deny list compiled to classic BPF, and an interpreter for it |
| `Geo.dfy` | the range index and the CIDR arithmetic |
| `Basics.dfy`, `Ints.dfy`, `Sorting.dfy` | shared: options, 64-bit integers and their text, the stable sort |

Code that changes things in place is modelled twice: as a method (usually on a class) with the
source's loops and assignments, and as a function on values that the method is proved to compute.
The theorems are about the functions. Laws that only fix one branch of a definition stand beside it
without a row below.

Taken from outside as parameters: what filtering commands and what programs that take the terminal
over do (`Host.command`, `Host.interactive`; both may re-enter the shell), the order in which Go
visits a map, clocks, whether the overlay pool grants a write (`VfsSession` and `PoolSteps` model
the pool itself, and in `VfsWorld` it decides), the host part of `ip:port`, the geo lookup of an
address in the overview, and the parsing of RFC 3339 times.

Where the code and its comments differ, the model follows the code:

* `internal/shell/shell.go:379-396`: the scan of `$((...))` stops at the second closing parenthesis
  and then steps one byte further, so the character behind the parentheses is lost
  (`ShellLaws.ArithmeticWord`, `ShellLaws.ArithmeticSwallows`).
* `internal/portal/feed.go:151`: a fresh connection starts at the end of the file even when a line
  is half written, and then streams the rest of that line as if it were one (`Feed.TornFirstLine`,
  `Feed.WholeLinesExactly`).
* `internal/geo/geo.go:77`: ranges are said not to overlap after loading, which loading does not
  enforce (`Geo.CoverageExactly` says when that costs an answer).

The expansion bound of `Shell.Expand` speaks of a shell inside a line (`execDepth` at least 1),
which is the only place the source expands anything: at depth 0 a nested line would refill the
budget. `Shell.RunLine` states the bound for the whole top-level line.

A single non-interactive command has its words expanded twice, as in
`internal/shell/shell.go:264-276` (`Shell.RunLone`, `ExpandLaws.LoneIsPaidTwice`).

## Model

| member | source | states |
|---|---|---|
| Paths.ShowIsFixed | internal/vfs/session.go:83-91 | resolving the text of a clean path gives the path back, whatever the working directory |
| Paths.AgainstIsClean | internal/vfs/session.go:347-353 | every resolved path is clean: no empty, dot or dot-dot component |
| Paths.AgainstEntry | internal/vfs/session.go:83-91 | `d/name` resolves to the resolution of `d` with `name` added, for every valid name |
| Paths.AgainstDots | internal/vfs/session.go:83-91 | `s/..` is the parent of what `s` names, in any directory and for any text, and `s/.` and `s/` are what `s` names |
| Paths.AgainstPiece | internal/vfs/session.go:83-91 | `..` alone is the parent of the directory it is read in, and that of the root is the root; `.` and nothing are the directory; a valid name is its entry |
| Paths.AgainstComposes | internal/vfs/session.go:83-91 | `s/t` is `t` read in what `s` names |
| Paths.AgainstAbsolute | internal/vfs/session.go:83-91 | a text that starts with a slash names the same in every directory |
| Vfs.DeletedIff | internal/vfs/session.go:335-345 | a path is hidden exactly when it or a path above it carries a tombstone |
| Vfs.ShallowerLookup | internal/vfs/session.go:274-333 | a lookup that succeeds deep in a chain of links succeeds identically at any smaller depth |
| Vfs.LookupThrough | internal/vfs/session.go:284-308 | a successful lookup passes through every directory above its end, with the node a lookup of that directory gives |
| Vfs.WayIsStable | internal/vfs/session.go:274-333 | changing one key in a directory, overlay or tombstone, never changes what the directory itself resolves to, through any links and cycles |
| Vfs.LastStep | internal/vfs/session.go:284-322 | the lookup of a path whose directory is known is the child of that directory |
| Vfs.ReadAfterWrite | internal/vfs/session.go:154-203 | after a successful write at any spelling, reading that spelling gives the bytes; a refused write changes nothing |
| Vfs.DirAfterMkdir | internal/vfs/session.go:206-233 | a directory just made is visible at its path; a refused mkdir changes nothing |
| VfsOutcomes.WriteOutcome | internal/vfs/session.go:154-203 | a write succeeds exactly if its place is a directory's, no directory stands there, content, session bytes and entries are within 2 MiB, 8 MiB and 2048, and the pool grants what it adds; each refusal has its own error |
| VfsOutcomes.MkdirOutcome | internal/vfs/session.go:206-233 | a mkdir succeeds exactly if its place is a directory's, nothing stands there and an entry is left or a tombstone is taken over; each refusal has its own error |
| VfsOutcomes.RemoveOutcome | internal/vfs/session.go:236-252 | a removal succeeds exactly on what is there but the root, links themselves included, and then it is gone; a refused one changes nothing |
| VfsOutcomes.ChdirOutcome | internal/vfs/session.go:140-152 | the working directory moves exactly to directories, and a relative path is read there from then on |
| VfsOutcomes.ChdirUp | internal/vfs/session.go:140-152 | `cd ..` goes to the parent directory |
| VfsOutcomes.LinkIsFollowed | internal/vfs/session.go:299-333 | a link at the end of a path is its target, read in the directory that holds the link |
| VfsOutcomes.SelfLinkIsNotThere | internal/vfs/session.go:272-277 | a link in the root that leads back to itself is not found, at any depth |
| VfsOutcomes.MadeNodes | internal/vfs/session.go:192-231 | what is made carries its path's last component as its name, belongs to root and has the usual permissions |
| VfsListing.ListingIsLookup | internal/vfs/session.go:109-138 | a directory lists exactly the names that resolve below it, with the same nodes |
| VfsListing.ListedIsFound | internal/vfs/session.go:94-138 | the same for typed paths: `name` is listed in `d` exactly when `Lstat(d/name)` finds it, and it is the same node |
| VfsListing.ListedFileReads | internal/vfs/session.go:96-138 | a file just listed reads as exactly the bytes of the listed node |
| VfsListing.WrittenIsListed | internal/vfs/session.go:109-203 | a written file is listed in the directory it was written to, as that node |
| VfsListing.FreshDirListing | internal/vfs/session.go:206-233 | a directory just made lists exactly the overlay nodes still recorded below it, so it is empty exactly when there are none |
| VfsRuns.SessionAccounting | internal/vfs/session.go:154-252 | over every run before release: the byte count is the summed overlay content and within its cap, each file within its own, overlay and tombstones are disjoint, and the entries exceed their cap by at most the removals that freed no overlay node |
| VfsRuns.RemovedStaysHidden | internal/vfs/session.go:236-252 | after a removal the path and everything below it stay invisible through any operations until a write or mkdir succeeds on exactly that path |
| VfsAliases.AliasExactly | internal/vfs/session.go:236-345 | after a removal another spelling resolves, and to the same node, exactly when it did before and neither its own way nor that of a link target on it meets the removed path |
| VfsAliases.OthersAreKept | internal/vfs/session.go:154-345 | a write, a mkdir or a removal, granted or refused, leaves every lookup as it was whose way, links included, does not pass the path it was made at |
| VfsAliases.RemovalIsPerSpelling | internal/vfs/session.go:236-252 | so a removed file stays visible under a spelling through a link to its directory: the witness tree |
| VfsSession.OverlayPool.Reserve | internal/vfs/session.go:39-49 | one session at a time, a reservation is granted exactly when it fits, and a refused one leaves the counter as it was |
| VfsSession.Session.LookupNode | internal/vfs/session.go:274-333 | the walk with its loop and link recursion computes the specified lookup |
| VfsSession.Session.IsHidden | internal/vfs/session.go:335-345 | the loop up the parents decides whether a tombstone covers the path |
| VfsSession.Session.ReadDir | internal/vfs/session.go:109-138 | the merge of base and overlay lists the specified entries: all of them, each once, in order of name |
| VfsSession.SortLists | internal/vfs/session.go:136-138 | sorting a covering of distinct entries by name gives them all, each once, strictly ascending |
| VfsSession.Session.WriteFile | internal/vfs/session.go:154-203 | the write computes the specified state and status, and moves the pool by exactly what it moves the session's bytes |
| VfsSession.Session.Mkdir | internal/vfs/session.go:206-233 | mkdir computes the specified state and status and leaves the pool alone |
| VfsSession.Session.Remove | internal/vfs/session.go:236-252 | remove computes the specified state and status and returns the file's bytes to the pool |
| VfsSession.Session.Release | internal/vfs/session.go:254-262 | release gives the session's bytes back once and keeps the overlay readable |
| VfsWorld.SessionsRunAlone | internal/vfs/session.go:39-262 | in every interleaving of any number of sessions on one tree and one pool, a session is in the state its own calls lead to when they run alone with the grants they received, and its log holds exactly the calls scripted for it |
| VfsWorld.PoolServesWorld | internal/vfs/session.go:39-262 | in the same interleavings, with every delta taken from the session's own overlay, the counter is what the granted writes hold plus the losing adds still in it, the granted part stays within the ceiling, and with no call in flight it is the sum of the sessions' byte counts, zero once all have left |
| VfsWorld.CallToEnd | internal/vfs/session.go:154-252 | a call whose steps are not interrupted does what the session object's method is specified to do, granted exactly when its growth fits the counter, and moves the counter by what it moves the session's bytes |
| PoolSteps.PoolInvariant | internal/vfs/session.go:39-49 | under every interleaving of add, compare and rollback the counter is the granted bytes plus the losing adds still in it, and the granted bytes never exceed the ceiling |
| PoolSteps.QuietPool | internal/vfs/session.go:170-262 | with nothing in flight the counter is the sum of the sessions' bytes, and it is 0 once all are released |
| PoolSteps.RefusedExactly | internal/vfs/session.go:39-49 | a lone reservation is refused exactly when it does not fit, and its rollback restores the state |
| Parse.TokensOfRender | internal/shell/parse.go:31-168 | tokenizing printed tokens gives the tokens back, whatever the words contain |
| Parse.ParseOfRender | internal/shell/parse.go:172-244 | parsing a printed well-formed statement list gives the list back: quoted words, assignments, redirects, pipelines, chains |
| Parse.ParseIsWellFormed | internal/shell/parse.go:172-244 | every line there is parses to a well-formed statement list |
| Parse.ReparseIsStable | internal/shell/parse.go:172-244 | so printing and parsing again what was parsed from any line changes nothing |
| ParseLaws.TokensOfSpelled | internal/shell/parse.go:31-168 | every spelling of a line, with any spacing, quoting, substitutions, newlines, brackets and unclosed quotes, tokenizes to the words and operators it spells |
| ParseLaws.EveryLineIsSpelled | internal/shell/parse.go:31-168 | and every line there is has such a spelling |
| ParseLaws.OnlyStdoutCounts | internal/shell/parse.go:222-240 | parsing any tokens is parsing them with every `2> word`, `< word` and `2>&1` taken out and `&>` read as `>` |
| ParseLaws.RedirectsAnywhere | internal/shell/parse.go:196-232 | a redirection may stand before the words of its stage as well as behind them |
| ParseLaws.EmptiesVanish | internal/shell/parse.go:179-221 | brackets and braces, empty statements and empty stages vanish |
| ParseLaws.AssignmentExactly | internal/shell/parse.go:247-260 | a word is an assignment exactly if a name stands before its first equals sign |
| Parse.TokenizeLine | internal/shell/parse.go:31-168 | the tokenizer's index loop computes the specified tokens |
| Parse.ParseCommand | internal/shell/parse.go:172-244 | the parser's loop computes the specified statements, which are well formed |
| Lists.LoopRefinesLists | internal/shell/shell.go:221-238 | for every statement list and any commands, the run-flag loop runs the same statements in the same order as a recursive evaluator of left-associative AND-OR lists, and ends in the same state |
| ShellLaws.StatementsMeanLists | internal/shell/shell.go:199-239 | the same for the shell itself: a parsed line leaves the state its AND-OR lists mean |
| Arith.EvalOfShow | internal/shell/shell.go:484-590 | every expression tree, printed with minimal parentheses and any spaces, evaluates to its value: left-associative, truncating 64-bit, division by zero 0 |
| Arith.RingOperators | internal/shell/shell.go:501-540 | the results of `+`, `-` and `*` lie within 64 bits, differ from the integers' by whole turns of 2^64, and are exact when those fit |
| Arith.DivisionOperators | internal/shell/shell.go:520-540 | dividend is divisor times quotient plus remainder, the remainder smaller than the divisor and on the dividend's side of zero; dividing by zero gives 0, and the one quotient that does not fit wraps |
| Arith.Evaluator.ParseAdd | internal/shell/shell.go:501-518 | the descent over the mutable position computes the specified value, and ends on every input |
| Arith.Evaluator.ParsePrimary | internal/shell/shell.go:559-590 | parentheses, dollar signs, numbers and names, on the mutable position |
| Shell.RunLine | internal/shell/shell.go:199-239 | over one top-level line with everything nested in it: at most the whole budget is debited, at most the capped number of substitutions run, the capture grows by no more than was paid, and depth and capture are restored |
| Shell.Expand | internal/shell/shell.go:350-440 | an expanded word has at most ten characters for each one written plus what the budget paid for; depth and capture are restored (what it expands to is stated by the `ExpandLaws` and `ShellLaws`) |
| Shell.CmdSub | internal/shell/shell.go:599-611 | a substitution yields no more than it debits |
| Shell.Emit | internal/shell/shell.go:291-326 | writing out keeps depth and capture, and what a capture gains is debited |
| ExpandLaws.VariableExpands | internal/shell/shell.go:428-436 | `$NAME` becomes the variable's value as far as the budget goes, and what stands behind the name is expanded with the budget left |
| ExpandLaws.BracedExpands | internal/shell/shell.go:421-427 | `${name}` the same, for any name without a closing brace |
| ExpandLaws.StatusExpands | internal/shell/shell.go:370-420 | `$?` is the last status in decimal and `$$` is 2841 |
| ExpandLaws.SubstitutionExpands | internal/shell/shell.go:398-415 | `$(line)`, for any line with balanced parentheses, is what the line wrote without the newlines at its ends and with spaces for those inside, or nothing past the caps; what stands behind it is expanded in the state the line left |
| ExpandLaws.BackquotesExpand | internal/shell/shell.go:357-364 | the same in backquotes |
| ExpandLaws.CapturedPipeline | internal/shell/shell.go:613-627 | a captured pipeline of filters gives what its last stage writes, as far as the budget goes, and its status |
| ExpandLaws.TerminalShows | internal/shell/shell.go:291-326 | on the terminal each line of the output ends in CR LF, and so does the last if it was not ended |
| ExpandLaws.LoneIsPaidTwice | internal/shell/shell.go:264-289 | a single filter given a variable gets its value, and the budget pays for it twice |
| ShellLaws.PlainIsKept | internal/shell/shell.go:350-353 | a word without dollar and backquote expands to itself and touches nothing |
| ShellLaws.AssignmentsSet | internal/shell/shell.go:245-252 | a statement of plain assignments leaves exactly those variables set and status 0, in whatever order Go visits the map |
| ShellLaws.FilterStatement | internal/shell/shell.go:241-289 | a pipeline of filters with plain words is their composition, emitted where the last stage says, with the last one's status |
| ShellLaws.ArithmeticWord | internal/shell/shell.go:378-397 | `$((e))` becomes the value of `e`, and the rest of the word is expanded from one character behind the parentheses |
| ShellLaws.ArithmeticSwallows | internal/shell/shell.go:378-397 | plain text behind the parentheses survives exactly when there is none |
| ShellLaws.ArithmeticStored | internal/shell/shell.go:245-252 | `x=$((e))` sets `x` to the text of the value and status 0, and arithmetic reads `x` back as that value, any 64-bit number |
| ShellObject.Interpreter.RunText | internal/shell/shell.go:199-239 | the shell object's line, with its fields changed in place, leaves the specified state |
| ShellObject.Interpreter.RunOne | internal/shell/shell.go:241-289 | one statement on the object: assignments, a pipeline into a shell, an interactive command, a pipeline |
| ShellObject.Interpreter.EmitOutput | internal/shell/shell.go:291-326 | discarding, redirecting, appending, capturing or printing leaves the specified state |
| ShellObject.Interpreter.ExpandWord | internal/shell/shell.go:350-440 | the index loop over the builder computes the specified word and state |
| ShellObject.Interpreter.TakeBudget | internal/shell/shell.go:336-348 | the clamp to what is left of the budget, and the debit |
| ShellObject.Interpreter.Captured | internal/shell/shell.go:613-627 | the captured line gives its output and puts the outer capture back |
| ShellObject.FindClose | internal/shell/shell.go:379-391 | the scan for the parenthesis that closes all open ones finds it, or the end |
| Echo.DecodeOfSpelled | internal/shell/commands.go:294-347 | decoding gives back the bytes however each was written: plain, by one of the nine letters, with one or two hexadecimal digits of either case, with up to three octal digits cut to eight bits, wherever the text behind does not continue the digits |
| Echo.UnknownStays | internal/shell/commands.go:338-342 | a backslash before anything else stays, and so does `\x` without a digit |
| Echo.EchoPrints | internal/shell/commands.go:263-287 | with any flags in front, the words joined by spaces are printed, decoded if some flag has an e and no -E comes behind it, with a newline unless some flag has an n |
| Echo.SpellIsSpelled | internal/shell/commands.go:294-347 | and every byte string can be written so |
| Echo.CmdEcho | internal/shell/commands.go:263-287 | the flag loop of `echo` computes the specified output |
| Echo.DecodeEscapes | internal/shell/commands.go:294-347 | the escape loop computes the specified bytes |
| Loader.AppendKeeps | internal/shell/shell.go:295-311 | an appending redirect leaves the old content followed by the output readable, and as much room as before |
| Loader.OverwriteReplaces | internal/shell/shell.go:295-311 | a redirect that does not append leaves the file with the output and nothing else |
| Loader.LoaderLineRuns | internal/shell/shell.go:199-326 | one loader line, however its payload is spelled, parsed, expanded, echoed and emitted, does nothing but append its bytes |
| Loader.LoaderRebuilds | internal/shell/shell.go:291-311 | for any payloads in any number of lines, however spelled, the file is left with its old content followed by exactly the bytes spelled, while the budgets allow the final size |
| Loader.SpellIsTyped | internal/shell/commands.go:289-347 | any bytes have such a payload |
| Feed.ExactlyOnce | internal/portal/feed.go:145-230 | over every interleaving of appends, reads, deliveries, disconnects and reconnects, what the client has is a beginning of the frames from where its stream began, and what is missing are exactly the frames behind its last id |
| Feed.NothingMissing | internal/portal/feed.go:185-230 | with the log read to its end and the wire empty, the client has every frame |
| Feed.NothingLostExactly | internal/portal/feed.go:151-164 | counted from the client's first connection nothing is lost, exactly when nothing was to be sent between that connection and the one its first frame came over |
| Feed.IdsAreOffsets | internal/portal/feed.go:200-210 | ids ascend strictly, and each is the offset just past a newline |
| Feed.WholeLinesExactly | internal/portal/feed.go:151-164 | a stream carries whole lines only, exactly when it starts at a line boundary or nothing sendable is left of the line it starts in |
| Feed.FramesOfLines | internal/portal/feed.go:193-213 | the frames of a log, from any offset, are one for each finished line with text: that text without its line end, and the offset just past it |
| Feed.TornFirstLine | internal/portal/feed.go:151-164 | a run in which a fresh client gets half a line |
| Feed.TickIsPulls | internal/portal/feed.go:191-214 | one tick of the handler is a run of reading steps of the system |
| Feed.EventStream.Tick | internal/portal/feed.go:190-228 | the handler's tick on its offset, partial line and idle count leaves the specified connection |
| Analyze.SignalsMean | internal/portal/analyze.go:63-141 | in every history each counter counts its events, each flag is raised by exactly the events it is named after, and the pacing is the least and greatest forward gap between commands |
| Analyze.SourceSignals.Observe | internal/portal/analyze.go:87-141 | one observed event leaves the specified signals |
| Analyze.HumansAreGuesses | internal/portal/analyze.go:152-225 | a source judged human ran three commands or more, none of a bot, none faster than typing, and gets a middling confidence |
| Analyze.ScannersDidNothing | internal/portal/analyze.go:187-199 | a source judged a scanner never offered a credential, ran a command, executed or downloaded |
| Analyze.VerdictHardens | internal/portal/analyze.go:152-225 | whatever a source does next, a loader stays a loader at least as confidently, enough bot evidence stays a bot, any bot evidence is never human |
| Verdicts.VerdictTable | internal/portal/analyze.go:152-208 | for every history, each kind exactly when: what was run, offered, executed and pulled, how fast and with which pauses |
| Verdicts.ConfidenceTable | internal/portal/analyze.go:209-226 | and how sure: from the evidence in the history for loaders and bots, from the credentials for sprays, fixed for scanners and people |
| Verdicts.ReasonsTable | internal/portal/analyze.go:152-208 | the reasons listed are exactly the evidence there is and the closing reason of the kind |
| Verdicts.PhasesReached | internal/portal/analyze.go:273-290 | each attack phase is reached exactly by its events |
| Verdicts.PhasesInOrder | internal/portal/analyze.go:305-316 | the phases reached are listed, each once, in the order of an attack |
| Verdicts.VisitsAddUp | internal/portal/analyze.go:230-256 | every event is counted in one visit |
| Verdicts.SummaryMeans | internal/portal/analyze.go:236-256 | a visit runs from its first event to its last, counts them all, was let in exactly if a command was run, and shows the furthest phase reached in it |
| Verdicts.ReturningMeans | internal/portal/analyze.go:258-270 | a source returned exactly if more than half an hour passed between two of its timed events, or it scanned a port and then spoke to the service |
| Verdicts.StampsFillIn | internal/portal/analyze.go:382-393 | a log without millisecond stamps is assessed as one with them filled in from its times |
| Verdicts.StampsSuffice | internal/portal/analyze.go:382-393 | and where the stamps are there, the text of the times plays no part |
| Verdicts.ContainsExactly | internal/portal/analyze.go:341-352 | a command holds a marker exactly when that stands somewhere in it |
| Analyze.NonceIsProbe | internal/portal/analyze.go:354-380 | one word behind `/bin/busybox` is a probe exactly when it is an alphanumeric nonce of at least three characters and no common applet |
| Caught.LoaderIsCaught | internal/portal/analyze.go:332-352 | a source that ran one echo-loader line, the line that rebuilds a file, alone or inside a longer one, is judged a loader whatever came before or after |
| Analyze.VisitsPartition | internal/portal/analyze.go:230-256 | the visits are the history, cut at idle gaps, with none inside a visit |
| Analyze.AnalyzeSource | internal/portal/analyze.go:230-271 | the analysis loop, changing the last visit in place, computes the verdict, the phases, the summary of each visit, the cadence and whether the source returned |
| Overview.OnePass | internal/portal/overview.go:104-237 | the interleaved pass keeps for every source what that source's own history amounts to, and counts the attributable entries |
| Overview.SourceRows | internal/portal/overview.go:104-254 | for every log the rows are, in order of first appearance, what the analysis of each source's own history says: kind, confidence, visits, returning, counts and times |
| Overview.RollUp | internal/portal/overview.go:307-343 | the rollup loop computes one statistic per key, sorted |
| Overview.RollupConserves | internal/portal/overview.go:307-380 | a rollup by any key accounts for every source and every event, busiest first |
| Overview.RollupIsRanked | internal/portal/overview.go:327-332 | most sources first, and among equals most events first |
| Overview.StatCounts | internal/portal/overview.go:307-326 | a statistic counts the rows of its key |
| Overview.RollupsMatchTotals | internal/portal/overview.go:307-380 | the country and the operator rollup of every log both sum to the headline sources and events |
| Overview.DrawerAgrees | internal/portal/feed.go:94-104 | for every log the program writes and every source listed, the drawer holds exactly the entries counted for that source, and kind, confidence, visits, returning and events agree with the row |
| Overview.ListShowsDrawers | internal/portal/analyze.go:60-62 | so list and drawers never disagree: the whole list is what opening each drawer shows |
| Telnet.ReadsAreTransparent | internal/proto/telnet/telnet.go:283-351 | with commands and bounded subnegotiations inserted anywhere, every choice of positive read sizes delivers exactly the data and sends exactly the policy's replies, if and only if no more than 512 requests stand between one line feed and the next |
| Telnet.CalmExactly | internal/proto/telnet/telnet.go:305-351 | the same for any stream of bytes: no read sizes can make the reads differ from stripping it as a whole, exactly when no more than 512 requests stand between line feeds |
| Telnet.SizesDoNotMatter | internal/proto/telnet/telnet.go:283-351 | for any stream at all and any read sizes, the reads together deliver the data, replies and end of the stripped stream exactly when none of them reports a flood |
| Telnet.ReadIsPrefix | internal/proto/telnet/telnet.go:283-351 | one read that reports no flood takes exactly a beginning of what stripping the stream gives and leaves the rest |
| Telnet.ReadsProgress | internal/proto/telnet/telnet.go:283-351 | every read without error delivers something and moves on, and a flood is reported only where more requests than the limit stand between line feeds |
| Telnet.FloodExactly | internal/proto/telnet/telnet.go:304-317 | a stream of requests alone ends a read as a flood exactly when they pass the limit, and each request met was answered, the last included |
| Telnet.ReadEnds | internal/proto/telnet/telnet.go:283-351 | where the stream ends decides: at its end or inside a command the data is delivered without the error, inside a subnegotiation or past its limit with it; a line feed ends a read |
| Telnet.SubnegExactly | internal/proto/telnet/telnet.go:318-341 | a subnegotiation is passed over exactly when its body has at most 256 items, and is an error otherwise |
| Telnet.RepliesRefuse | internal/proto/telnet/telnet.go:255-276 | the server only refuses, once and by name, and never answers a refusal |
| Telnet.IacReader.Read | internal/proto/telnet/telnet.go:283-351 | the loop that fills the buffer in place computes the specified read |
| Telnet.IacReader.Negotiate | internal/proto/telnet/telnet.go:255-276 | the replies sent are the policy's |
| Telnet.IacReader.SkipSubnegotiation | internal/proto/telnet/telnet.go:318-341 | the bounded skip ends at IAC SE, at the limit or at the end of the stream |
| Tty.ChunksDoNotMatter | internal/proto/ssh/ssh.go:335-396 | cooking input in any chunks leaves the same state as cooking it at once |
| Tty.ScreenMatchesDelivery | internal/proto/ssh/ssh.go:356-403 | for every input, replaying the echo on a screen shows the delivered lines, with abandoned ones delivered empty, the cursor row is the edit buffer, and the buffer stays below its limit |
| Tty.NewlinesAlike | internal/proto/ssh/ssh.go:356-368 | any input delivers and echoes what it does with one line feed for each CR, LF and CR LF |
| Tty.CrLfIsCr | internal/proto/ssh/ssh.go:356-368 | a line feed put behind a CR that has none changes nothing, anywhere in any input |
| Tty.LineIsDelivered | internal/proto/ssh/ssh.go:356-403 | printable text below the limit, ended by CR, LF or CR LF, is delivered once with one line feed and shown once |
| Tty.LinesAreDelivered | internal/proto/ssh/ssh.go:356-403 | typed lines are delivered as they are typed, all of them |
| Tty.LongLineIsDelivered | internal/proto/ssh/ssh.go:385-395 | a line that reaches the limit is delivered without waiting for its end |
| Tty.EraseUndoes | internal/proto/ssh/ssh.go:369-373 | a character typed and erased again leaves nothing to deliver |
| Tty.KeysDo | internal/proto/ssh/ssh.go:369-384 | erasing on an empty line and Ctrl-D on one with text do nothing; Ctrl-C drops the line and delivers an empty one |
| Tty.NothingAfterEof | internal/proto/ssh/ssh.go:379-384 | after Ctrl-D on an empty line nothing typed later is delivered or echoed |
| Tty.CookedTTY.Cook | internal/proto/ssh/ssh.go:356-396 | the byte loop on the fields leaves the specified state |
| Tty.CookedTTY.ReadToEnd | internal/proto/ssh/ssh.go:335-352 | reads of any buffer size together deliver all that cooking the input makes pending |
| Seccomp.FilterMeans | cmd/sweetty/seccomp_linux.go:38-61 | for every deny list, architecture and system call the emitted program ends with all jumps in range, in KILL exactly when the architecture differs or the number is listed, in ALLOW otherwise |
| Seccomp.InstalledExactly | cmd/sweetty/seccomp_linux.go:61-70 | the kernel's checks (at most 4096 instructions, jumps in range, a return at the end) pass the installed program exactly for lists of at most 2045 numbers, and a program they pass means its list |
| Seccomp.InstalledMeans | cmd/sweetty/seccomp_linux.go:61-63 | run without those checks, the program with its length cut to sixteen bits means its list exactly for lists of at most 32765 numbers |
| Seccomp.BuildFilter | cmd/sweetty/seccomp_linux.go:46-60 | the appending loop builds the specified program |
| Geo.SearchIsScan | internal/geo/geo.go:127-159 | on disjoint sorted ranges the rightmost-start lookup returns what a linear scan returns, for every address |
| Geo.Find | internal/geo/geo.go:127-159 | the binary search computes the rightmost-start lookup |
| Geo.SearchAbove | internal/geo/geo.go:132-132 | the search finds the first range that starts above the address |
| Geo.CoverageExactly | internal/geo/geo.go:175-206 | on sorted ranges that may overlap, every covered address is found exactly when no range sticks out from under a later one |
| Geo.CidrIsPrefix | internal/geo/geo.go:217-227 | for every prefix length 0 to 32 the computed span holds exactly the addresses that agree with it on the prefix |
| Geo.CidrIsBlock | internal/geo/geo.go:217-227 | in integers: the span holds exactly the addresses that are the same number once the host bits are shifted out |
| Geo.PackedIsValue | internal/geo/geo.go:338-340 | packing four octets gives the number their bits spell one octet after the other |

## Left out

- Vfs.Lookup: nodes are values, so that two overlay entries could share one node, and that a returned content slice could be written through, is not captured.
- Vfs.WriteFile: modification times come in as a parameter; permissions and owners of new nodes are the constants of the source.
- Paths.Against: `path.Clean` is modelled as a fold over components of absolute paths, not on raw bytes.
- VfsSession.Session.ReadDir: `sort.Slice` is modelled as a stable insertion sort; entries have distinct names, so the order is the same.
- VfsWorld.SessionsRunAlone: one session's calls do not overlap each other, since one connection makes them; a mkdir, a change of directory and a refused call are one step, since they touch nothing shared.
- PoolSteps.PoolInvariant: the atomic counter is an unbounded integer; overflow of an int64 by tentative adds is not modelled.
- Shell.RunLine: the recovery from a panic in a command is not modelled, and commands are a parameter that gives an output and a status or re-enters the shell once.
- Shell.RunCommand: the bodies of the commands other than `echo` (files, processes, network tools) are not modelled, nor is logging; the same goes for Shell.RunInteractive.
- Shell.RunStatement: the order in which Go visits a map of assignments is a parameter.
- Arith.EvalOfShow: Unicode digits and letters are not modelled; names and numbers are ASCII, as the source's byte tests are.
- ShellObject.Interpreter.EmitOutput: the filesystem session is held by value, with the operations of `Vfs`; `VfsSession` models the session object.
- Loader.LoaderRebuilds: speaks of file names without shell specials and of lines typed at the top, with payloads that single quotes hold together; the overlay pool is taken to grant the writes.
- Feed.ExactlyOnce: the `id:`/`event:`/`data:` text of a frame, flushing and keep-alive pings are not modelled; a frame is its id and its line. A log that is truncated or rotated is not modelled.
- Feed.EventStream.Tick: a client that goes away is a limit on the frames that can still be written.
- Analyze.SourceSignals.Observe: the fields are grouped into three records (counters, flags, pacing), the event names are constructors, and differences of timestamps do not wrap at 64 bits.
- Analyze.IsBusyboxProbe: white space is the ASCII kind.
- Overview.OnePass: the per-source maps of the source, which always have the same keys, are one map of records by value; the per-port, per-agent and today's counters, the lists of ports and protocols, and the cap on listed sources are left out.
- Overview.DrawerAgrees: speaks of logs as the program writes them: management notices name no address, and every other entry has the host part of its remote address as its source. Of a hand-edited log it says nothing.
- Overview.RollUp: the two rollup loops of the source differ only in their key and in carrying a system number; they are one method with the key as a parameter.
- Telnet.IacReader.Read: read errors other than the end of the stream are not told apart, and the reader is one that answers (a reader without a responder sends nothing).
- Tty.ScreenMatchesDelivery: one byte is one cell of the screen: no UTF-8, no wrapping at the terminal's width. A backspace over a character of several bytes, which takes one byte from the buffer and one cell from the screen, is where a real terminal differs.
- Tty.CookedTTY.Read: read errors of the channel other than its end are not modelled, nor are window sizes.
- Seccomp.InstalledExactly: the kernel is modelled by its checks on a filter and by the three instructions the filter uses; no other part of the system call is. The list in the source has seven numbers.
- Geo.CidrIsPrefix: 32-bit words are sequences of bits; the shift, mask and or are bitwise on them.
- Geo.Find: parsing of CSV records and of addresses, the special ranges, and IPv6 are left out.
- Loading the embedded tree, persona generation, HTTP personas, TLS capture, process listings, console proxy, recordings, connection caps and brute-force counters: external effects, statistics, or small members.
- Log queries (`logQuery`, `bySession`, `reverse`): filters and a reversal that would only add easy members.
