# Verified models of the agent's text, glob, stream and session cores

The repository is a coding agent. Parts of it put things back together that arrive in pieces or
out of order: files read block by block, a streamed assistant message, tool-call cards on an ACP
client, prompts that race with cancels, instance files shared by processes, a command line sent to
a remote shell. This project models those parts in Dafny and proves what they guarantee, for every
input and every interleaving.

Code that works in place keeps that form: the readers reuse one buffer object, the validator, the
streamed message, the tool-call listener, the replay, the session with its tokens and listeners, and
one registration are classes, and each of their methods is proved equal to a function on values or
to a step of a transition system. The theorems are about those functions and steps.
Concurrent parts are transition systems: a step that is not possible changes nothing, so a theorem
about every sequence of steps is a theorem about every run.

| module | what it holds |
|---|---|
| `Utf8`, `Utf16` | the two decoders that drop ill-formed input, the resumable validator, RFC 3629 and RFC 2781 |
| `LineText`, `FileReading`, `TailReading`, `Scanning`, `DecodedLines` | line splitting, block reader, tail reader, scanner, and lines of decoded text |
| `GlobPattern`, `GlobMeaning` | segment compiler; parser and meaning (ECMA-262 section 22.2) of the expressions it emits |
| `GlobWalk`, `GlobTheorems`, `GlobDuplicates`, `GlobOrder` | the directory walk with its path-local visited set, and the errors its compiler throws |
| `StreamAssembly`, `StreamTheorems`, `StreamRouting` | `generate`, and where the fragments of any stream end up |
| `WireIds`, `AcpToolStream`, `AcpToolTheorems` | tool-call events, the listener's cache, and a client that replaces content |
| `AcpReplay`, `AcpReplayTheorems` | replay of a stored conversation, with pushes that may fail |
| `AcpPrompts`, `AcpAdapter`, `AcpPromptTheorems` | concurrent prompts, cancels, events and rejections; the session's objects, which simulate them |
| `InstanceRegistry`, `RegistryTheorems`, `RegistryPorts` | registration, heartbeat, release and sweeps of many processes; ports on disk |
| `RemoteCommand`, `PosixShell`, `CommandTheorems` | the command printer and a POSIX reader for its output |

Some results say that a natural expectation does not hold of the code, and exactly when it does:

- a compiled glob segment means what the segment denotes only with every class range in order and,
  but for segments that can match nothing, without an escaped `*` or `?`
  (`GlobMeaning.GlobMeaningExactly`, `SatisfiableMeaning`); it compiles at all only if the wildcards
  that lost their escape land where a quantifier may stand (`GlobMeaning.CompilesExactly`), and `glob`
  throws exactly when its walk comes to a segment that does not (`GlobTheorems.GlobThrowsExactly`);
- no path is yielded twice only for patterns with at most one `**`, or with a part that accepts no name
  (`GlobDuplicates.DuplicatesExactly`);
- lines yielded one by one are the lines of the decoded whole only when the last line holds a
  well-formed character, or the file is not a bare byte order mark (`DecodedLines.IgnoredLines`,
  `StrictLines`);
- a client shows the right argument text only while fragments do not come back to an earlier
  turn's call with another text (`AcpToolTheorems.FaithfulExactly`);
- a remote command runs the given arguments only when the first one is not itself shell syntax
  printed bare, such as `A=b` (`CommandTheorems.CommandMeaningExactly`);
- the newest port is on disk only if the last update accepted since the last renamed write began, if
  any, set the port that is there (`RegistryPorts.NewestPortExactly`);
- a second `release` returns at once, although the instance file is gone only once the first call has
  got past its unlink (`RegistryTheorems.SecondReleaseExactly`); the guarantee about release is stated
  for the call that set the flag.

## Model

| member | source | states |
|---|---|---|
| Utf8.DecodeUtf8Ignore | packages/kaos/src/internal.ts:7-82 | the decoding loop computes the reference reading of the bytes, and emits only scalar values, never a surrogate |
| Utf8.DecodeUndoesEncode | packages/kaos/src/internal.ts:7-82 | decoding undoes UTF-8 encoding (RFC 3629 section 3) for every sequence of scalar values |
| Utf8.DecodingSettles | packages/kaos/src/internal.ts:7-82 | on arbitrary bytes, re-encoding the reading gives well-formed bytes with the same reading |
| Utf8.WellFormedIffReencodes | packages/kaos/src/internal.ts:7-82 | bytes are well-formed (RFC 3629 section 4) iff re-encoding their reading gives them back |
| Utf8.Utf8Validator.Write | packages/kaos/src/local.ts:826-862 | one chunk moves the three variables as the automaton does, and throws exactly where it stops |
| Utf8.AcceptsIffWellFormed | packages/kaos/src/local.ts:816-867 | the automaton accepts exactly the well-formed byte sequences |
| Utf8.ValidateChunks | packages/kaos/src/local.ts:816-867 | for every cutting into chunks, validation succeeds iff the joined bytes are well-formed |
| Utf16.DecodeUtf16LeIgnore | packages/kaos/src/internal.ts:84-121 | the loop computes the reference reading of UTF-16LE and never emits a surrogate |
| Utf16.DecodeLeEncoded | packages/kaos/src/internal.ts:84-121 | decoding undoes UTF-16LE encoding (RFC 2781 section 2) for every sequence of scalar values |
| Utf16.DecodingLeSettles | packages/kaos/src/internal.ts:84-121 | on arbitrary bytes, re-encoding the reading gives well-formed bytes with the same reading |
| Utf16.WellFormedLeIffReencodes | packages/kaos/src/internal.ts:84-121 | bytes are well-formed UTF-16LE iff re-encoding their reading gives them back |
| LineText.SplitLinesKeepingTerminator | packages/kaos/src/local.ts:776-788 | the split is the line sequence of the text |
| LineText.LinesPartition | packages/kaos/src/local.ts:776-788 | lines concatenate to the text, and each but the last ends in its only line feed |
| LineText.LinesUnique | packages/kaos/src/local.ts:776-788 | no other sequence has those two properties |
| LineText.LineCount | packages/kaos/src/local.ts:513-526 | there are as many lines as line feeds, plus one for an unterminated tail |
| FileReading.ReadUtf8Lines | packages/kaos/src/local.ts:593-648 | for every content, buffer size and sequence of short reads, exactly the requested lines with their byte offsets reach the decoder, although one buffer is overwritten by every read |
| FileReading.CopyOf | packages/kaos/src/local.ts:632 | the kept tail is a fresh buffer with the same bytes |
| FileReading.LinesAskedFor | packages/kaos/src/local.ts:598-643 | counted out: which lines those are, how many, and that each starts where the lines before it end |
| TailReading.ReadRange | packages/kaos/src/local.ts:869-886 | short reads are repeated until the range or the file ends |
| TailReading.ReadTailLines | packages/kaos/src/local.ts:545-591 | the offset found is a line start and the data runs from it to the end; where positioned reads fill their buffer it is exactly the last lines, with exactly the other lines before it; where they are short, which the code does not check, never fewer lines |
| TailReading.SuffixIsTail | packages/kaos/src/local.ts:545-591 | counting line feeds backwards finds the start of the last lines, with or without a final line feed |
| TailReading.LastLinesAre | packages/kaos/src/local.ts:545-591 | counted out: which lines the last ones are |
| Scanning.UpdateLineEndingFlagsFromBytes | packages/kaos/src/local.ts:790-814 | flags describing what came before describe it with the chunk added, pairs cut by the boundary included |
| Scanning.ScanTextFile | packages/kaos/src/local.ts:495-531 | succeeds iff the file is well-formed; the total is the number of lines of the reader; each flag holds iff such a pair or byte occurs in the whole file |
| Scanning.EveryEndingIsClassified | packages/kaos/src/local.ts:790-814 | the three kinds leave no line feed and no carriage return out |
| DecodedLines.IgnoredLines | packages/kaos/src/local.ts:478-493 | in ignore mode the lines concatenate to the decoded whole, and are its lines iff the last line holds a well-formed character |
| DecodedLines.InvisibleLine | packages/kaos/src/local.ts:639-643 | the file of the one byte 0xFF yields one empty line, while its decoded text has none |
| DecodedLines.StrictLinesThrow | packages/kaos/src/local.ts:478-493 | in strict mode some line throws iff the file is ill-formed |
| DecodedLines.StrictLines | packages/kaos/src/local.ts:478-493 | on a well-formed file the lines are those of the decoded whole iff the file is not just a byte order mark |
| DecodedLines.StrictTail | packages/kaos/src/local.ts:584-587 | on a well-formed file the tail is the last lines of the decoded whole |
| DecodedLines.IgnoredTail | packages/kaos/src/local.ts:584-587 | in ignore mode so iff the last line holds a well-formed character or the tail is the whole file |
| GlobPattern.UnitCharKeepsOrder | packages/kaos/src/internal.ts:186-238 | representing code units by characters keeps their order and leaves ASCII alone |
| GlobPattern.GlobPatternToRegex | packages/kaos/src/internal.ts:186-238 | the index loop writes, between anchors, the concatenated fragments of the segment's items |
| GlobPattern.ItemsOfText | packages/kaos/src/internal.ts:188-236 | what a segment denotes, read off its text from the left: characters, the two wildcards, escapes, a trailing backslash |
| GlobPattern.BracketedClass | packages/kaos/src/internal.ts:198-218 | an opening bracket and the first closing one make a class, whatever follows |
| GlobPattern.UnclosedBracket | packages/kaos/src/internal.ts:199-202 | an opening bracket that is never closed stands for itself |
| GlobPattern.ItemsOfClass | packages/kaos/src/internal.ts:203-216 | a leading `!` negates, and anything else is a range or a character |
| GlobMeaning.GlobCompiles | packages/kaos/src/internal.ts:186-238 | without escaped wildcards and with ranges in order, the expression compiles and accepts exactly the slash-free names the segment denotes, folding case or not |
| GlobMeaning.GlobMeaningExactly | packages/kaos/src/internal.ts:186-238 | for every segment, it does so iff ranges are in order and either no wildcard is escaped, or the expression compiles and has an atom it must match but cannot |
| GlobMeaning.SatisfiableMeaning | packages/kaos/src/internal.ts:186-238 | so, unless a segment with an escaped wildcard can match nothing, iff no wildcard is escaped and every range is in order |
| GlobMeaning.CompilesExactly | packages/kaos/src/internal.ts:219-238 | compilation does not throw iff ranges are in order and every quantifier, those from escaped wildcards included, follows an atom as the grammar asks |
| GlobMeaning.RangeOutOfOrder | packages/kaos/src/internal.ts:197-218 | any class such as `[z-a]` denotes no name, and compiling it throws |
| GlobMeaning.EscapedQuestionMark | packages/kaos/src/internal.ts:220-231 | the segment `a\?` compiles to an expression that accepts `a` |
| GlobWalk.GlobWalk | packages/kaos/src/local.ts:344-450 | the recursive walk ends on every graph, and yields in order what its specification says up to the first segment that fails to compile, where it throws |
| GlobWalk.GlobFrom | packages/kaos/src/local.ts:299-322 | `glob` is the walk whose visited set starts with the base itself |
| GlobWalk.GlobYields | packages/kaos/src/local.ts:299-450 | each path is yielded exactly as often as its names align with the pattern, and never if its descent repeats a directory; at most as often if the walk throws |
| GlobWalk.NoDuplicates | packages/kaos/src/local.ts:356-409 | with at most one `**` no path is yielded twice |
| GlobDuplicates.DuplicatesExactly | packages/kaos/src/local.ts:356-449 | no graph makes a pattern yield a path twice iff it has at most one `**` or a part that accepts no name |
| GlobTheorems.GlobMembership | packages/kaos/src/local.ts:299-450 | read off the graph alone: a path is yielded iff listed names lead to it through directories entered once, the base not again, and the names match, unless the walk throws first |
| GlobTheorems.BaseYielded | packages/kaos/src/local.ts:372-377 | the base itself is yielded iff every part is `**` |
| GlobOrder.WalkOrder | packages/kaos/src/local.ts:372-447 | a leading `**` is first taken for nothing, then everything below follows the order of the listing |
| GlobOrder.CutExactly | packages/kaos/src/local.ts:411 | what was yielded before a segment fails to compile stays yielded, and nothing after it |
| GlobTheorems.GlobThrowsExactly | packages/kaos/src/local.ts:411 | the walk throws iff it enters a directory whose names match the parts before one that does not compile |
| GlobTheorems.AlignedIffMatches | packages/kaos/src/local.ts:356-449 | an alignment exists iff `**` stands for some run of names and every other part for one name |
| GlobTheorems.CompiledMatches | packages/kaos/src/local.ts:410-423 | with the compiled segments, names match iff the segments denote them |
| GlobTheorems.GlobFindsWhatIsDenoted | packages/kaos/src/local.ts:299-450 | from the text of the pattern to paths: without escaped wildcards and with ranges in order, nothing throws and exactly the denoted reachable paths are yielded |
| StreamAssembly.PartCell.MergeInPlace | packages/kosong/src/message.ts:171-202 | true iff the parts can merge; the target becomes the merged part or stays |
| StreamAssembly.Message.FlushPart | packages/kosong/src/generate.ts:325-350 | content and calls are appended, the index map points at the new call, orphaned deltas vanish |
| StreamAssembly.Generate | packages/kosong/src/generate.ts:145-267 | the loop ends with the assembled message, or the error for an empty, thinking-only or unfinished response |
| StreamAssembly.BlankCharacters | packages/kosong/src/generate.ts:229 | the characters that `trim` takes for blank, by number |
| StreamTheorems.ContentKeepsEverything | packages/kosong/src/message.ts:171-202 | for any stream, every text and thinking character, signature and media part is kept in order, each signature after the thinking it closes |
| StreamTheorems.CallsFollowHeaders | packages/kosong/src/generate.ts:325-350 | for any stream, one call per header, in header order |
| StreamRouting.FragmentsReachTheirCalls | packages/kosong/src/generate.ts:145-214 | for any stream at all, repeated indices, fragments without index and orphans included: each call's text is its header's followed by exactly the fragments that belong to it, in stream order, where a fragment belongs to the last header with its index or else to the header it directly follows |
| StreamRouting.ArgumentsByIndex | packages/kosong/src/generate.ts:145-214 | when headers have distinct indices and every fragment follows the header of its index, each call's text is its header's followed by the texts of the fragments with its index, in order |
| StreamTheorems.InterleavingIsIrrelevant | packages/kosong/src/generate.ts:162-195 | the message depends only on the other parts and on each call's delta text, so interleaving and cutting of deltas do not matter |
| StreamTheorems.ContentIgnoresDeltas | packages/kosong/src/generate.ts:162-195 | deltas never change how content is cut into parts |
| StreamTheorems.ContentBySections | packages/kosong/src/generate.ts:162-195 | under the same routing, content is, section by section between headers, what was streamed there, character by character, with no two neighbours left that could merge |
| StreamTheorems.ContentIsFullyMerged | packages/kosong/src/generate.ts:186-195 | in a stream of content alone no two neighbouring parts are left that could merge |
| StreamTheorems.HeaderSeparates | packages/kosong/src/generate.ts:186-195 | a header that no delta follows ends the content part before it |
| WireIds.AcpToolCallIdInjective | packages/acp-adapter/src/events-map.ts:93-95 | equal wire ids come from the same turn and raw id, colons in raw ids included |
| WireIds.NaturalIsDecimal | packages/acp-adapter/src/events-map.ts:94 | turn numbers are written in decimal without leading zeros |
| AcpToolStream.ToolCallListener.OnEvent | packages/acp-adapter/src/session.ts:1100-1201 | one event updates the accumulators and the started set, and sends, exactly as specified, with no accumulator shared between raw ids |
| AcpToolStream.ToolCallListener.Accumulate | packages/acp-adapter/src/events-map.ts:203-223 | the shared accumulator grows by the fragment and its whole text is sent |
| AcpToolStream.Listen | packages/acp-adapter/src/session.ts:1100-1201 | what a listener sends for a whole sequence of events |
| AcpToolTheorems.StartSendsItsCard | packages/acp-adapter/src/events-map.ts:158-320 | every start of the main agent sends one note about its own card with all it knows, and its plan; an upgrade iff the card is known |
| AcpToolTheorems.FragmentSendsItsCard | packages/acp-adapter/src/events-map.ts:203-272 | every fragment of the main agent sends one note: the first creates the card, a later one replaces its text |
| AcpToolTheorems.OthersLeaveNoTrace | packages/acp-adapter/src/session.ts:994-995 | without the events of other agents the same is sent |
| AcpToolTheorems.CreatedOnceThenUpdated | packages/acp-adapter/src/session.ts:1002-1021 | for any events, each wire id is created once and every start or fragment update comes after its creation |
| AcpToolTheorems.CacheMatchesDisplay | packages/acp-adapter/src/session.ts:1184-1192 | for any events, the cached text of a raw id is what the client shows on the card it was last used for |
| AcpToolTheorems.FaithfulExactly | packages/acp-adapter/src/session.ts:1100-1201 | every card shows at every moment what its call's own events say, iff fragments return to an earlier turn only while both turns' texts agree |
| AcpToolTheorems.ForwardTurnsAreFaithful | packages/acp-adapter/src/session.ts:1016-1021 | so it does whenever the turns using a raw id never go back |
| AcpToolTheorems.ReturningFragmentMixesTexts | packages/acp-adapter/src/session.ts:1184-1192 | a concrete run in which a returning fragment shows another turn's text |
| AcpToolTheorems.TextBeforeStart | packages/acp-adapter/src/events-map.ts:251-272 | before its start a card shows its fragments so far |
| AcpToolTheorems.TextAfterStart | packages/acp-adapter/src/session.ts:1100-1107 | afterwards it shows the started arguments followed by later fragments |
| AcpReplay.Replayer.ReplayOne | packages/acp-adapter/src/session.ts:647-717 | one message changes turn, owners and pushes as specified, stopping at a failed push |
| AcpReplay.ReplayHistory | packages/acp-adapter/src/session.ts:593-637 | the pushes of a whole history, whichever of them fail |
| AcpReplayTheorems.UpdatesNameCreatedCards | packages/acp-adapter/src/session.ts:684-712 | whichever pushes fail, every update names a card whose creation was pushed before |
| AcpReplayTheorems.CreatesAreUnique | packages/acp-adapter/src/session.ts:672-682 | whichever pushes fail, no card is created twice if ids are distinct within each message |
| AcpReplayTheorems.UniqueExactly | packages/acp-adapter/src/session.ts:672-682 | with no failed push, cards are unique iff ids are distinct within each message |
| AcpReplayTheorems.ReplayIsTranscript | packages/acp-adapter/src/session.ts:593-717 | with no failed push, a result updates the card of the latest assistant message that issued its raw id, and nothing is sent if there is none |
| AcpReplayTheorems.HeardAsSaid | packages/acp-adapter/src/session.ts:659-748 | with no failed push the client hears exactly the non-empty texts of the user, of the assistant, and its thoughts, each as such and in order |
| AcpReplayTheorems.AssistantStops | packages/acp-adapter/src/session.ts:672-683 | whatever pushes fail: content and then calls are pushed up to the first failure, and exactly the calls whose creation was pushed belong to the turn |
| AcpReplayTheorems.UserStops | packages/acp-adapter/src/session.ts:659-671 | a user message is pushed up to the first failure |
| AcpPrompts.Session.Cancel | packages/acp-adapter/src/session.ts:278-285 | every prompt still compressing is marked aborted |
| AcpPrompts.TurnListener.OnEvent | packages/acp-adapter/src/session.ts:1024-1274 | one event changes the listener and the session's turn, sends so many updates and settles, exactly as specified |
| AcpPrompts.TurnListener.OnKickRejected | packages/acp-adapter/src/session.ts:1276-1281 | a rejected kick settles and unsubscribes unless already settled |
| AcpAdapter.Adapter.BeginPrompt | packages/acp-adapter/src/session.ts:797-807 | a new token joins the set, unflagged, for one more compressing prompt |
| AcpAdapter.Adapter.CancelAll | packages/acp-adapter/src/session.ts:278-285 | where the pending tokens are exactly those of compressing prompts, cancelling does to every prompt what the system's cancel does |
| AcpAdapter.Adapter.FinishCompression | packages/acp-adapter/src/session.ts:819-853 | the token leaves the set, and a listener is subscribed iff a turn is to be launched, as in the system's step |
| AcpAdapter.Adapter.OnEvent | packages/acp-adapter/src/session.ts:1024-1274 | an event changes one of many listeners and the shared turn as the system's delivery does |
| AcpAdapter.Adapter.OnKickRejected | packages/acp-adapter/src/session.ts:1276-1281 | a rejected kick settles its own listener as the system's step does |
| AcpAdapter.Adapter.OtherSteps | packages/acp-adapter/src/session.ts:846-854 | local commands and resolved kicks leave tokens and listeners as they are |
| AcpPromptTheorems.CancelledWindowNeverLaunches | packages/acp-adapter/src/session.ts:797-854 | in every interleaving, a prompt launches or runs a local command iff compression succeeded with no cancel before its end; otherwise it is settled as cancelled, or with the failure |
| AcpPromptTheorems.SettlesAtMostOnce | packages/acp-adapter/src/session.ts:992-1282 | a prompt settles at most once and sends, launches and hears nothing afterwards |
| AcpPromptTheorems.FirstDecisionWins | packages/acp-adapter/src/session.ts:992-1282 | a launched prompt settles exactly at, and as told by, the first of: end of a main-agent turn, rejected kick, busy error before its own turn started |
| AcpPromptTheorems.ActiveTurnExactly | packages/acp-adapter/src/session.ts:1032-1047 | in every interleaving, the session's active turn is that of the last main-agent event a prompt listened to, unless that event settled its prompt |
| AcpPromptTheorems.OutputReachesTheClient | packages/acp-adapter/src/session.ts:1070-1227 | in every interleaving, each output event of the main agent that a launched prompt hears is followed at once by its updates, and no others are sent |
| AcpPromptTheorems.NothingIsMissed | packages/acp-adapter/src/session.ts:1024-1282 | an unsettled prompt hears what it is delivered, and kicks, cancels and the end of compression are never lost |
| InstanceRegistry.Registration.BeginWrite | packages/kap-server/src/instanceRegistry.ts:255-269 | a write starts and is counted unless released |
| InstanceRegistry.Registration.EndWrite | packages/kap-server/src/instanceRegistry.ts:270-273 | the count drops, and the last end wakes a waiting release |
| InstanceRegistry.Registration.BeginRelease | packages/kap-server/src/instanceRegistry.ts:292-302 | the flag is set once, and the call waits iff writes are in flight |
| RegistryTheorems.ReleasedStaysGone | packages/kap-server/src/instanceRegistry.ts:292-308 | once the releasing call has resolved, the file is absent in every continuation of the run |
| RegistryTheorems.NoLostWakeup | packages/kap-server/src/instanceRegistry.ts:249-302 | in every continuation, a release waits exactly while one of the writes it found has not ended |
| RegistryTheorems.LastEndWakes | packages/kap-server/src/instanceRegistry.ts:270-303 | the end of the last write makes the unlink possible, which it was not before |
| RegistryTheorems.ReleaseCompletes | packages/kap-server/src/instanceRegistry.ts:303-308 | once drained, an unlink and its return resolve the release of a running instance |
| RegistryTheorems.PeersSpareTheLiving | packages/kap-server/src/instanceRegistry.ts:175-231 | no step of a peer touches the file of an owner that still runs, whatever happens between read, probe and unlink |
| RegistryTheorems.DeadEntriesAreSwept | packages/kap-server/src/instanceRegistry.ts:183-229 | a sweep that reads an entry whose pid no process has, probes and unlinks leaves no file for it, whatever others do meanwhile, unless that pid is started again before the probe |
| RegistryTheorems.SweepRemoves | packages/kap-server/src/instanceRegistry.ts:190-194 | the unlink of a sweep is possible once the entry was found dead, and removes it and nothing else |
| RegistryTheorems.ProbeSparesTheRunning | packages/kap-server/src/instanceRegistry.ts:189 | probing a pid that runs ends the sweep and keeps every file |
| RegistryTheorems.LiveInstanceHasItsFile | packages/kap-server/src/instanceRegistry.ts:233-316 | from the end of its first write until its own unlink, a running instance has a file with its pid |
| RegistryTheorems.SecondReleaseExactly | packages/kap-server/src/instanceRegistry.ts:292-293 | a further release of a running instance changes nothing, and the file is gone by then iff the first call has got past its unlink |
| RegistryPorts.DiskPort | packages/kap-server/src/instanceRegistry.ts:255-269 | in every run, the port on disk is the one current when the write renamed last began |
| RegistryPorts.LandingExists | packages/kap-server/src/instanceRegistry.ts:255-269 | every file on disk has such a write |
| RegistryPorts.NewestPortExactly | packages/kap-server/src/instanceRegistry.ts:287-291 | the file shows the newest port iff the last update accepted since that write began, if any, set the port it shows |
| RegistryPorts.QuietUpdateShows | packages/kap-server/src/instanceRegistry.ts:287-291 | an update begun with no write in flight is on disk once any later write is renamed, until the next accepted update |
| RegistryPorts.OlderHeartbeatWins | packages/kap-server/src/instanceRegistry.ts:278-291 | a run from the empty directory in which a heartbeat renamed late puts the old port back |
| RegistryPorts.SecondReleaseIsEarly | packages/kap-server/src/instanceRegistry.ts:292-302 | a run in which a second release has returned while the file is still there |
| RemoteCommand.BuildExecCommand | packages/kaos/src/ssh.ts:894-923 | fails iff a name is invalid, naming the first; otherwise prints directory change, assignments and quoted arguments |
| CommandTheorems.NameIsName | packages/kaos/src/ssh.ts:906 | the names that are accepted are exactly the names of the shell |
| CommandTheorems.QuotedUnlessBare | packages/kaos/src/ssh.ts:114-120 | an argument is printed as it is iff it is not empty and holds only the listed characters |
| CommandTheorems.ScanQuoted | packages/kaos/src/ssh.ts:114-120 | reading a quoted argument adds exactly its characters to the word being read |
| CommandTheorems.TokensOfCommand | packages/kaos/src/ssh.ts:894-923 | tokenizing gives `cd`, the directory, `&&`, each `KEY=value`, then every argument |
| CommandTheorems.WordsSpellTheirTexts | packages/kaos/src/ssh.ts:911 | quote removal turns those words into the argument, and into key, equals sign and value |
| CommandTheorems.CommandMeaningExactly | packages/kaos/src/ssh.ts:884-923 | the shell runs exactly these arguments under exactly these assignments in that directory iff the first argument is no bare assignment and, without assignments, no reserved word |
| CommandTheorems.BareAssignmentIsTaken | packages/kaos/src/ssh.ts:117 | a first argument `NAME=value` of safe characters is taken for one more assignment |

## Left out

- TextDecoder's strict and replace modes beyond what is used here: strict succeeds exactly on well-formed input and drops one leading byte order mark unless told not to; replace mode is library code.
- Decoded text is a sequence of code points; JavaScript's UTF-16 strings and the bit operations of the decoders are written as arithmetic.
- FileReading: a file does not change while it is read.
- GlobWalk: directories whose file system reports inode 0, for which the code itself gives up cycle safety, and the SSH walker, which tracks no cycles. The order of a directory listing is a parameter.
- GlobMeaning: case folding is an arbitrary relation on characters. An empty class means what the expression means, no character or any one, which is not how Python's glob reads it.
- GlobPattern: a UTF-16 code unit is represented by a character, past the gap that Dafny's characters leave for surrogates; `UnitChar` is the representation, which keeps equality, order and ASCII. Elsewhere text is a sequence of characters, so a pair of surrogates cut between two streamed fragments is not represented.
- StreamAssembly.Generate: requests, abort signals, callbacks, timing and usage; parts are values, so sharing of a part object with the provider is not captured.
- AcpToolStream: pushes are taken to arrive in order; progress and result events, for which the code does not check that a card exists, and the text of display blocks.
- WireIds.AcpToolCallId: turn numbers are integers that print in plain decimal.
- AcpPrompts: image compression is one opaque step, a local command sends any number of messages and ends; a closed session whose subscription throws is not modelled.
- InstanceRegistry: JSON and temporary files, unparseable files (which sweeps ignore), and the sorted result of listing. A registration carries the pid of its own process, server ids are unique, and processes share one pid namespace.
- PosixShell: of the shell grammar only what generated commands use; expansions are not read, and what `cd` does with a directory that begins with a hyphen is not modelled.
- RemoteCommand: the layering of environments before the command is built.
- Options parsing, approvals, slash-command reports, telemetry, provider adapters, user interfaces and HTTP wiring.
