# ProxyLane: models and proofs

This project models the parts of ProxyLane that are algorithms and protocols rather than user
interface, and proves what they promise. `dafny verify dfyconfig.toml` checks all of it.

- **Command lines** (`Text`, `Argv`, `RawTail`, `Quoting`, `Automation`, `OptionWords`,
  `BuildCommandLine`, `LaunchArguments`, `CommandLineRoundTrip`, `Applications`, `LaunchShortcut`,
  `ShortcutMeaning`). The tokenizer `CommandLineToArgvW` is an automaton over characters made from its documented rules. Over it the
  printer and the parser of the options are inverse, the search for the raw text after `--` finds the
  only possible boundary, and the words of a line alone decide what the parser makes of it.
- **Process list** (`Sorting`, `ProcessForest`, `ProcessOrder`, `ProcessTree`, `ProcessSiblings`,
  `ProcessFamilies`, `ProcessRows`, `ProcessPage`). Depth-first numbering of a forest that can contain cycles and reused
  process numbers, breadth-first search for descendants, and an update in time slices that edits a
  native list and its mirror. The list control is a sequence of rows.
- **Log** (`LogQueue`, `LogHandshake`, `LogText`, `LogEntries`, `LogView`). A bounded queue, the handshake of posts
  and timers as interleaved steps, and a text with date headings that is trimmed from the front.
- **Configuration** (`FileSystem`, `ConfigStorage`, `ConfigImport`). Edits and imports over a file
  system in which every call can fail and other programs write in between, keeping to the lock or not.
  The answers of the system are arguments, so that a run is a function of them and of what is found
  under the lock; the methods compute these functions, and the properties quantify over all answers.
- **Base64** (`Base64Codec`, `Base64Tables`, `Base64Standard`, `Base64`).
- **Smaller machines** (`CatalogCache`, `AsyncSnapshot`, `InstalledApplications`,
  `BrowserLaunchWatch`, `TickClock`, `ProcessWorld`, `ProcessActions`, `ExitProcessCleanup`). Processes
  are ended through handles: opening a number gives whatever lifetime has it, and only the calls
  themselves write the log about which the properties speak.

Everything the system decides is a parameter or a free choice: tokenizer failures (`works`), which rows
the list control accepts, time slices, file operations, exiting processes, case folding (`lower`).
Locked regions are atomic steps.

Where the code and its own comments differ, the model follows the code:

- `ConfigStorage.h` promises that an edit atomically replaces the original. `ReplaceFile` without a
  backup name has a documented failure that leaves nothing under the old name, after which the staged
  copy is deleted too. `ConfigStorage.AllOrNothingUnlessLost` gives the exact condition on the answers,
  `ConfigStorage.SafeWhateverHappens` the one on the file alone, `ConfigStorage.UpdateLoses` a run.
- `ConfigStorage.cpp` says that an existing configuration cannot be overwritten by the defaults. If the
  query for its attributes fails, `Initialize` treats it as absent and the edit writes over it.
  `ConfigStorage.KeptUnlessOverwritten` and `ConfigStorage.KeptWhateverHappens` are the exact
  conditions, `ConfigStorage.InitializeOverwrites` is a run.
- `ConfigImport.cpp` says that a configuration changed by another writer is never overwritten. That
  holds of the swap, but `Restore` replaces or deletes whatever is there: after a swap that was tried
  and refused, and after a restart that failed while another program wrote.
  `ConfigImport.LegitimateUnlessOverwritten` and `ConfigImport.LegitimateWhateverHappens` are the exact
  conditions, `ConfigImport.RefusedSwapDeletesTheirs` and `ConfigImport.FailedRestartOverwritesTheirs`
  the two runs.
- `ProcessActions.h` says that a batch shares one bounded time. The elapsed time is the difference of
  two readings of a clock that wraps after 2^32 milliseconds, so that a batch that is held up for a
  whole turn gets its time again. `ProcessActions.SharedExactlyWithinATurn` and
  `ProcessActions.BatchSharesExactly` are the exact conditions, `ProcessActions.WaitsTooLong` and
  `ProcessActions.BatchWaitsTooLong` the failing waits and batches.
- `ApplicationCatalogCache.cpp` says that a scan under way is shared. Its worker can finish between the
  two looks at it; a refresh, or a cache that keeps no result yet, then starts another scan and drops
  the finished one. `CatalogCache.ApplicationCatalogCache.Acquire` has the exact condition,
  `CatalogCache.FinishedScanIsDropped` a run.
- Separate arguments are printed behind typed ones so that the application reads them as they are. If the
  typed ones leave a quote open they become part of it; `LaunchArguments.ApplicationReads` is the exact condition.
- A command line round trip loses leading blanks of the raw arguments
  (`CommandLineRoundTrip.ReadBackIsExact`), and it needs no condition on a trailing backslash of the
  executable path.

## Model

| member | source | states |
|---|---|---|
| Argv.EndIsUnique | src/ProxyLane/AutomationOptions.cpp:39-49 | at most one offset of a line, followed by a blank, leaves exactly the tokens up to a given one |
| Argv.EndExists | src/ProxyLane/AutomationOptions.cpp:23-49 | past the program name every token has such an offset, unless the line opens a quote in it and never closes it |
| Argv.OpenQuoteHasNoEnd | src/ProxyLane/AutomationOptions.cpp:6-8 | a token whose quote stays open has no boundary at all |
| RawTail.MatchIsEnd | src/ProxyLane/AutomationOptions.cpp:28-49 | for every line and candidate offset the probe with the marker matches if and only if the token ends there, whatever text the tokens hold |
| RawTail.TailIsAfterArgument | src/ProxyLane/AutomationOptions.cpp:39-57 | a tail that is returned starts right after token i with its leading blanks removed, and no other candidate offset matches |
| RawTail.TailFoundUnlessQuoteOpen | src/ProxyLane/AutomationOptions.cpp:9-61 | with token i being `--` the search fails if and only if that token leaves a quote open |
| RawTail.RawTailAfterArgument | src/ProxyLane/AutomationOptions.cpp:9-61 | the scanning loop returns that tail whenever the tokenizer calls succeed; failing calls can only turn it into no tail |
| Quoting.QuoteCommandLineArgument | src/ProxyLane/AutomationOptions.cpp:260-298 | the backslash-counting loop writes the quoted form, for every string |
| Quoting.QuotedIfNeeded | src/ProxyLane/AutomationOptions.cpp:260-298 | quotes are put around an argument exactly if it is empty or has a blank, a tab or a quote in it |
| Quoting.QuoteReadsBack | src/ProxyLane/AutomationOptions.cpp:260-298 | the tokenizer, started between two arguments, reads a quoted argument back as that argument, with any quotes, blanks and backslashes in it |
| Quoting.QuoteThenBlank | src/ProxyLane/AutomationOptions.cpp:260-298 | a blank after a quoted argument ends it and nothing else |
| Quoting.QuotedProgramThenBlank | src/ProxyLane/LaunchShortcut.cpp:117 | a quoted executable path without quotes ends at the following blank under the separate rule for the first token; a trailing backslash does no harm |
| Automation.ReadOptionValue | src/ProxyLane/AutomationOptions.cpp:80-101 | fails exactly for a missing or empty value, with the matching error, and otherwise takes the next argument |
| OptionWords.HelpIsFound | src/ProxyLane/AutomationOptions.cpp:118-134 | help is asked for if and only if a help word stands where an option is read: not in the place of a value, and not after `--` |
| OptionWords.ValuesAreNotRead | src/ProxyLane/AutomationOptions.cpp:122-125 | there is one way through the words: what follows an option with a value is never read as an option, nor is anything after `--` |
| OptionWords.RecognizedIgnoringCase | src/ProxyLane/AutomationOptions.cpp:144-215 | a word is a given option if and only if it differs from a spelling of that option in case only |
| OptionWords.RefusedIfFaulty | src/ProxyLane/AutomationOptions.cpp:161-237 | a word is refused exactly if it is faulty, and what is reported says how: a repeated option first, then a missing or an empty value, an unknown word, a missing boundary |
| OptionWords.ParseDecides | src/ProxyLane/AutomationOptions.cpp:118-257 | for every line: help, or a refusal about the first faulty word, exactly if an option is repeated, has no value, is unknown after `--auto`, or `--` has no boundary, or no automation without `--auto`, or acceptance exactly with profile, target and no unknown option, the last of which is reported; then each flag is set if and only if its word is read, each value is the word after its option, typed arguments and raw tail stand with one space between them, and the rest is untouched |
| LaunchArguments.JoinedAreRead | src/ProxyLane/AutomationOptions.cpp:156-158 | typed arguments with a raw tail behind them are read one after the other if and only if the typed ones leave no quote open, or one of the two is empty |
| LaunchArguments.ApplicationReads | src/ProxyLane/AutomationOptions.cpp:300-332 | of what is printed and parsed back the application reads the typed arguments and then every separate one as it was given, under that exact condition |
| OptionWords.GivenOnce | src/ProxyLane/AutomationOptions.cpp:161-226 | in a line without a fault no option is read twice |
| Automation.ParseAutomationOptions | src/ProxyLane/AutomationOptions.cpp:103-258 | the whole parser computes its specification when the tokenizer calls succeed; failing calls can only cause the two tokenizer errors |
| BuildCommandLine.BuildAutomationCommandLine | src/ProxyLane/AutomationOptions.cpp:300-332 | prints the words of the options followed by the raw tail, in the order of the source |
| CommandLineRoundTrip.ParseReadsBuild | src/ProxyLane/AutomationOptions.cpp:103-332 | parsing a quoted program and a printed record gives the record back: profile, target, name, directory, flags, event, and the raw arguments joined with the quoted ones; for all values with profile and target non-empty |
| CommandLineRoundTrip.ReadBackIsExact | src/ProxyLane/AutomationOptions.cpp:156-158 | what is read back equals the printed record if and only if there are no separate target arguments and the raw ones do not start with a blank |
| CommandLineRoundTrip.ParsedShape | src/ProxyLane/AutomationOptions.cpp:239-257 | a parsed record has no separate target arguments, and with `--auto` it has a profile and a target |
| CommandLineRoundTrip.ReparseIsStable | src/ProxyLane/AutomationOptions.cpp:103-332 | printing what any accepted line parsed to and parsing it again settles after one round |
| LaunchShortcut.DecodeShortcut | src/ProxyLane/LaunchShortcut.cpp:110-149 | decodes a link into a target and options, with every refusal of the source; a failing tokenizer makes a link invalid, nothing else |
| ShortcutMeaning.LaunchIsSaid | src/ProxyLane/LaunchShortcut.cpp:117-119 | a line counts as a launch if and only if its words say so: `--auto`, profile and target, no help, no event, no fault |
| ShortcutMeaning.DecodeDecides | src/ProxyLane/LaunchShortcut.cpp:110-134 | for every source: not managed exactly if what it stands for is packaged or another program; decoded exactly if it is the program itself, its words ask for a launch, and they name something that is there and is not the program; otherwise invalid |
| ShortcutMeaning.DecodedMeans | src/ProxyLane/LaunchShortcut.cpp:120-148 | every field of a decoded target and its options: the named target or the link behind it with the arguments of both, never empty unless that link is, never the program itself |
| ShortcutMeaning.LinkDecodesAsResolved | src/ProxyLane/LaunchShortcut.cpp:113-114 | a link decodes to what its resolution decodes to |
| ShortcutMeaning.DanglingIsInvalid | src/ProxyLane/LaunchShortcut.cpp:114 | a link that points nowhere is invalid |
| LaunchShortcut.CreateShortcut | src/ProxyLane/LaunchShortcut.cpp:151-168 | fails if and only if the profile, the entry or the own path is missing, the entry is an unusable link of the program, or the line is too long, or the tokenizer fails; otherwise it writes the printed record of the entry, or of the target behind it where the entry is such a link itself |
| LaunchShortcut.CreatedIsRead | src/ProxyLane/LaunchShortcut.cpp:110-168 | whatever has been written, for links of the program too, decodes to what the entry stands for, with profile, name and flags, if and only if the entry is not a link to a link |
| LaunchShortcut.DecodeRecoversStored | src/ProxyLane/LaunchShortcut.cpp:110-168 | decoding a stored link recovers the target, its directory, its name and its options |
| LaunchShortcut.ArgumentsRecoveredExactly | src/ProxyLane/LaunchShortcut.cpp:122 | the arguments come back unchanged if and only if they do not start with a blank |
| ProcessForest.ParentIsListed | src/ProxyLane/Page3.cpp:2904-2917 | the parent is the listed one if that is there, is not zero or the process itself, and is not known to have started later; there is none otherwise |
| ProcessForest.StepsUp | src/ProxyLane/Page3.cpp:2904-2917 | on the way up every process was listed under the next one, and known start times never increase |
| ProcessForest.VisitDistinct | src/ProxyLane/Page3.cpp:2959-3001 | a depth-first visit adds no process twice, with cycles and missing parents |
| ProcessForest.VisitIsSubtree | src/ProxyLane/Page3.cpp:2959-3001 | a visit to an unvisited process adds exactly what its valid-parent chains lead back to |
| ProcessForest.NothingBelowVisited | src/ProxyLane/Page3.cpp:2967-2968 | nothing below an unvisited process can have been visited before it |
| ProcessForest.VisitContiguous | src/ProxyLane/Page3.cpp:2959-3001 | every subtree added by a visit is one stretch that starts with its root |
| ProcessForest.OrderIsBijection | src/ProxyLane/Page3.cpp:2931-2956 | the numbering lists every process of the snapshot exactly once, cycles included |
| ProcessForest.RootedVisited | src/ProxyLane/Page3.cpp:2931-2936 | every process whose chain of parents ends is reached from the roots |
| ProcessForest.SubtreeIsInterval | src/ProxyLane/Page3.cpp:2931-2956 | the subtree of every process whose chain of parents ends is a stretch of the numbering |
| ProcessTree.PrefixFollowsDepth | src/ProxyLane/Page3.cpp:2984-2989 | the lines drawn before a name are three characters for every ancestor |
| ProcessSiblings.PrefixIsDrawn | src/ProxyLane/Page3.cpp:2984-2992 | character by character: a branch before the process, ending if no sibling is listed after it, and for each ancestor but the root a gap or a line by the same rule |
| ProcessSiblings.SiblingsNumbered | src/ProxyLane/Page3.cpp:2874-2890 | siblings, and roots, are numbered in the order of the system's list, then by number |
| ProcessSiblings.RootedNumbered | src/ProxyLane/Page3.cpp:2934-2956 | whatever only hangs together in cycles is numbered after everything else |
| ProcessTree.LastIsLast | src/ProxyLane/Page3.cpp:2984-2988 | the branch drawn for the end of a list of children stands before exactly the child after which no sibling sorts |
| ProcessPage.ProcessPage.FindFamilies | src/ProxyLane/Page3.cpp:2896-2924 | the children lists are exactly the processes listed under one that is there, another and not known to be younger; the roots are those listed under none |
| ProcessPage.ProcessPage.AppendProcessTree | src/ProxyLane/Page3.cpp:2959-3001 | numbers the visit, consecutively from the given number, and draws each process below the one it was reached from |
| ProcessPage.ProcessPage.BuildProcessTree | src/ProxyLane/Page3.cpp:2892-2957 | tree numbers form a bijection in which rooted subtrees are intervals, siblings follow the list and cycles come last, prefixes draw the forest, and nothing else of the snapshot changes |
| ProcessPage.ProcessPage.CollectDescendantProcessIds | src/ProxyLane/Page3.cpp:2353-2420 | returns without duplicates exactly what is listed, by a parent not known to be younger, under the process or under something returned, in tree order; for a rooted process this is the stretch right after it |
| ProcessFamilies.ExploredIsSubtree | src/ProxyLane/Page3.cpp:2384-2401 | a finished breadth-first search has found exactly the subtree |
| ProcessFamilies.DescendantsFollow | src/ProxyLane/Page3.cpp:2403-2419 | sorted descendants are the stretch of the numbering that follows the root |
| ProcessOrder.CompareTurns | src/ProxyLane/Page3.cpp:2791-2870 | swapping the sides negates the comparison, and it is zero only for one process or two missing ones |
| ProcessOrder.BeforeChains | src/ProxyLane/Page3.cpp:2791-2870 | the comparison is transitive in every column and both directions, with missing processes and missing start times |
| ProcessOrder.CompareTextMeans | src/ProxyLane/Page3.cpp:2835-2853 | the comparison of texts is the order of a dictionary: the first letter that differs but for case decides, and a text comes before its continuations |
| ProcessOrder.BeforeMeans | src/ProxyLane/Page3.cpp:2813-2869 | what comes first in each column and direction, by the fields: numbers, names, known start times before unknown ones, paths, ties by number, and the tree order when unsorted |
| ProcessOrder.OrderIsStrict | src/ProxyLane/Page3.cpp:2791-2870 | it is a strict total order on a set of numbers if and only if at most one of them is missing from the snapshot |
| Sorting.SortIsUnique | src/ProxyLane/Page3.cpp:3123-3127 | a strict total order allows only one sorted arrangement, so two different sorts agree |
| Sorting.IsSorted | src/ProxyLane/Page3.cpp:3123 | comparing neighbours decides whether the rows are sorted |
| ProcessRows.RowsAreStrict | src/ProxyLane/Page3.cpp:3120-3122 | rows of different known processes are strictly ordered by the comparison |
| ProcessRows.BothSorted | src/ProxyLane/Page3.cpp:3118-3128 | sorting the native list and the mirror separately leaves them in agreement row by row |
| ProcessRows.InstalledIsTarget | src/ProxyLane/Page3.cpp:2755-2766 | when an update is finished the rows are exactly the filtered snapshot, apart from rows the list control refused |
| ProcessRows.RowsShow | src/ProxyLane/Page3.cpp:2714-2745 | each row of the list control shows number, name, start time and path of its process, the name behind the lines of the tree only when unsorted |
| ProcessRows.FilterFinds | src/ProxyLane/Page3.cpp:4106-4111 | a process passes the filter if and only if it is hooked where that is asked for, and the filter text is some part of its number, name and path in lower case |
| ProcessRows.DecimalIsNumber | src/ProxyLane/Page3.cpp:2737 | the shown number has the digits of the process number and no zero in front |
| ProcessRows.UnsortedFollowsTree | src/ProxyLane/Page3.cpp:2817-2823 | unsorted rows stand in the order of the tree |
| ProcessRows.RowsAreDetermined | src/ProxyLane/Page3.cpp:2695-2788 | snapshot, filter and sorting decide the rows, whatever was shown before and however the batches were cut |
| ProcessRows.RowKept | src/ProxyLane/Page3.cpp:2717-2730 | a row brought up to date leaves nothing pending for its process and stays unique |
| ProcessPage.ProcessPage.VisitRow | src/ProxyLane/Page3.cpp:2704-2731 | a row is deleted exactly if its process has gone or its number was reused; otherwise it becomes what the snapshot has, at the cost of one write for each text that differs; both copies change alike and the measure falls |
| ProcessPage.ProcessPage.InsertNext | src/ProxyLane/Page3.cpp:2732-2751 | the least pending number gets a row at the end of both copies, or is recorded as refused; the measure falls |
| ProcessPage.ProcessPage.RunBatch | src/ProxyLane/Page3.cpp:2702-2753 | the loop keeps the agreement of both copies, its turns are bounded by unvisited rows plus pending ones, a batch does at most 68 writes, and at least one turn if there is work and the clock is in time at first |
| ProcessPage.ProcessPage.ApplyProcessBatch | src/ProxyLane/Page3.cpp:2695-2766 | every slice keeps the page invariant; the last one leaves exactly the filtered snapshot, sorted unless the native sort fails |
| ProcessPage.ProcessPage.SortDisplayedProcesses | src/ProxyLane/Page3.cpp:3118-3128 | both copies end with every two rows in the order that their column, direction and numbers give, or unchanged if the native sort fails |
| ProcessPage.ProcessPage.BeginFilteredUpdate | src/ProxyLane/Page3.cpp:4091-4118 | starts over with the filtered snapshot from any state of the rows, in the middle of an update too |
| ProcessPage.ProcessPage.CancelProcessRefresh | src/ProxyLane/Page3.cpp:2623-2643 | a cancelled update leaves an empty page, a finished one is left as it is |
| ProcessPage.ProcessPage.PollProcessList | src/ProxyLane/Page3.cpp:2656-2693 | an update under way keeps its snapshot and its goal, and its work falls by at least its turns, of which there is one if the clock is in time at first, until it ends; a new snapshot, a number listed twice standing for its last entry, is numbered, filtered and shown; a hidden page gives up; otherwise nothing changes |
| ProcessPage.ProcessPage.OnFilterTimer | src/ProxyLane/Page3.cpp:3447-3454 | the trimmed, lower-cased text restarts the update with its part of the same snapshot; a finished update is in order |
| Text.TrimmedIs | src/ProxyLane/Page3.cpp:3450 | trimming cuts off spaces only, and leaves none at either end |
| ProcessPage.ProcessPage.UpdateProcessNameDisplay | src/ProxyLane/Page3.cpp:3130-3157 | every row gets the name that goes with the sorting, in both copies, and keeps its place |
| ProcessPage.ProcessPage.OnLvnColumnClickProcessList | src/ProxyLane/Page3.cpp:3185-3216 | ignored during an update and outside the columns; otherwise ascending, descending and unsorted in turn, with the rows in that order, when unsorted in the order of the tree |
| LogQueue.BoundedLogQueue.PushBack | src/ProxyLane/BoundedLogQueue.h:35-50 | drops the oldest entry when full, counts it, and asks for a notification only if none is pending |
| LogQueue.BoundedLogQueue.TakeBatch | src/ProxyLane/BoundedLogQueue.h:52-71 | hands out the oldest entries and the count of dropped ones, and clears the pending mark exactly when nothing is left |
| LogQueue.NothingUnaccounted | src/ProxyLane/BoundedLogQueue.h:35-91 | through every run of operations the pushes since the last clear are, batch by batch, so many dropped entries and then the batch, then the dropped and queued ones |
| LogQueue.FreshQueueReconstructs | src/ProxyLane/BoundedLogQueue.h:25-91 | the same from a new queue, with its length within the capacity |
| LogHandshake.RunKeepsWakeup | src/ProxyLane/Page2.cpp:210-242 | no interleaving of producers, posts, timers, clears and failures loses the wakeup of a pending notification |
| LogHandshake.FreshPageKeepsWakeup | src/ProxyLane/Page2.cpp:210-242 | the same from a new page |
| LogHandshake.StrandedByStep | src/ProxyLane/Page2.cpp:210-242 | a step strands entries exactly if it reports a failed post or timer, and they stay so until a post, a clear or an emptying flush |
| LogHandshake.StrandedOnlyByFailure | src/ProxyLane/Page2.cpp:210-242 | over every interleaved run from a new page: entries are left without a notification if and only if a failure has been reported since which no post, clear or emptying flush has come |
| LogHandshake.NextPushPostsAgain | src/ProxyLane/Page2.cpp:363-373 | the next push after such a failure posts again |
| LogHandshake.SettleDelivers | src/ProxyLane/Page2.cpp:254-321 | left alone, the page comes to rest and shows exactly what was queued for it, in order |
| LogHandshake.PendingIsDelivered | src/ProxyLane/Page2.cpp:210-321 | with a notification pending everything queued is shown |
| LogEntries.EntryIsWritten | src/ProxyLane/Page2.cpp:375-410 | an entry adds the heading of its day, unless that is the last one in the log, and its lines up to the last that is not empty, each with the time in front unless it is empty; nothing if all are empty |
| LogEntries.KeptUnlessBlank | src/ProxyLane/Page2.cpp:378-382 | nothing is added exactly if the text consists of line breaks |
| LogEntries.HasLines | src/ProxyLane/Page2.cpp:378-380 | every text is made of lines, with CRLF, CR or LF as one break between two of them |
| LogEntries.StampedShows | src/ProxyLane/Page2.cpp:399-409 | cut at its line breaks, what was added shows the lines again, each with its stamp |
| LogEntries.TimestampIsStamp | src/ProxyLane/Page2.cpp:396-398 | the digits of a stamp read back as hour, minute and second |
| LogEntries.HeaderIsHeading | src/ProxyLane/Page2.cpp:384-391 | the digits of a heading read back as year, month and day |
| LogEntries.EntriesInTurn | src/ProxyLane/Page2.cpp:267-283 | the entries of a batch are added one after the other |
| LogText.AppendEntryAttributes | src/ProxyLane/Page2.cpp:375-410 | appending an entry keeps offsets ascending from zero, headers under their markers, the last date, and every character under its date |
| LogText.AppendAllAttributes | src/ProxyLane/Page2.cpp:267-283 | the same for a whole batch |
| LogText.TrimAttributes | src/ProxyLane/Page2.cpp:438-463 | trimming at any offset keeps the same, the heading of the first kept entry included |
| LogView.CutKeepsCharacters | src/ProxyLane/Page2.cpp:438-463 | every kept character is the same and is governed by the same date after a trim |
| LogView.FlushBounds | src/ProxyLane/Page2.cpp:254-464 | a flush cuts if and only if one of the two limits is exceeded; it leaves fewer lines than are to be kept, and not more characters, apart from the heading written again, and cuts at the first line start that does so |
| LogView.EditsAttribute | src/ProxyLane/Page2.cpp:254-464 | after any run of appends, trims and clears each character is governed by the date it was logged under |
| LogView.LogPage.AppendLogEntry | src/ProxyLane/Page2.cpp:375-410 | the loops write the entry as `LogEntries.EntryIsWritten` describes it |
| LogView.LogPage.FlushLogText | src/ProxyLane/Page2.cpp:254-318 | appends the warning and the entries of the batch in turn and trims, with the count of removed characters |
| LogView.LogPage.TrimLogLines | src/ProxyLane/Page2.cpp:420-464 | trims at the chosen offset and returns by how much the text became shorter |
| FileSystem.LinkedStates | src/ProxyLane/ConfigStorage.cpp:108-139 | linked changes lead from state to state, each from what the one before it left |
| ConfigStorage.Stage | src/ProxyLane/ConfigStorage.cpp:117-127 | the private copy holds a complete edit of what the configuration holds, and the configuration is untouched |
| ConfigStorage.Commit | src/ProxyLane/ConfigStorage.cpp:135 | one step puts the edited bytes in place; a file that was absent is created only if it is absent in that step |
| ConfigStorage.UpdateLocked | src/ProxyLane/ConfigStorage.cpp:110-138 | computes the run that the answers of the system decide; whoever else writes, it is nothing or one change to a whole edit |
| ConfigStorage.Update | src/ProxyLane/ConfigStorage.cpp:108-139 | the same from the moment the lock is taken, with all recorded changes linked; without the lock nothing changes |
| ConfigStorage.AllOrNothingUnlessLost | src/ProxyLane/ConfigStorage.h:24 | for every file, edit and answers of the system: success means the edited bytes and failure the old file, if and only if the replacement of an existing file is not reached and lost |
| ConfigStorage.SafeWhateverHappens | src/ProxyLane/ConfigStorage.h:24 | the same for the file alone: no answers can break the promise if and only if it is absent, read-only, or the edit fails or changes nothing |
| ConfigStorage.UpdateLoses | src/ProxyLane/ConfigStorage.cpp:135-138 | a run that fails and leaves nothing |
| ConfigStorage.UpdateSucceeds | src/ProxyLane/ConfigStorage.cpp:108-139 | an edit succeeds if and only if the file is absent or writable, the edit works, and so does every call that is made, of which the last are left out if nothing would change |
| ConfigStorage.InitializeSucceeds | src/ProxyLane/ConfigStorage.cpp:153-172 | the program has its configuration if and only if the path, the directory and the lock are there and the file is seen or an edit succeeds |
| ConfigStorage.KeptUnlessOverwritten | src/ProxyLane/ConfigStorage.cpp:159-160 | an existing configuration stays if and only if the first query for it is answered, or the edit that follows is not carried out |
| ConfigStorage.KeptWhateverHappens | src/ProxyLane/ConfigStorage.cpp:159-170 | no answers can harm it if and only if it is read-only or starts with the defaults already |
| ConfigStorage.InitializeOverwrites | src/ProxyLane/ConfigStorage.cpp:159-170 | a run that writes the defaults over the start of a configuration |
| ConfigStorage.CreatedWhole | src/ProxyLane/ConfigStorage.cpp:153-172 | a configuration that does not exist is created whole or not at all |
| ConfigStorage.Initialize | src/ProxyLane/ConfigStorage.cpp:153-172 | computes that run: the configuration found under the lock and the answers decide |
| ConfigImport.LegitimateUnlessOverwritten | src/ProxyLane/ConfigImport.cpp:238-312 | for every run: each change of the import replaces what was backed up or what it has left itself, if and only if it does not restore over something else |
| ConfigImport.LegitimateWhateverHappens | src/ProxyLane/ConfigImport.cpp:267-270 | no answers can make the import overwrite another writer if and only if the file had changed before the swap, so that nothing is attempted, or holds what was backed up when it is to be restored |
| ConfigImport.RefusedSwapDeletesTheirs | src/ProxyLane/ConfigImport.cpp:243-284 | a run in which a refused swap leads to the deletion of a configuration made by another program |
| ConfigImport.FailedRestartOverwritesTheirs | src/ProxyLane/ConfigImport.cpp:244-309 | a run in which a change made by another program during the wait is overwritten because the restart fails |
| ConfigImport.DoneAsReported | src/ProxyLane/ConfigImport.cpp:262-297 | the import counts as done if and only if the file still was what was backed up, the staged one what was imported, every call of the swap has worked and the program is ready; then its one change replaces the old content by the imported bytes |
| ConfigImport.RestoreMeans | src/ProxyLane/ConfigImport.cpp:238-252 | taking the import back works if and only if the old content is there already or comes to be there by calls that all work; then it is what is left |
| ConfigImport.RestoredAsReported | src/ProxyLane/ConfigImport.cpp:284-312 | in every other run the import has changed nothing, or the configuration holds what was backed up when the lock is released for the last time, or the user is told that it may not |
| ConfigImport.FailureIsReported | src/ProxyLane/ConfigImport.cpp:284-315 | the user is told so if and only if the import is to be taken back and that fails, or the new program neither becomes ready nor ends; the old program is started again exactly in the other cases in which the new one ends, and a kept original and a failed start are reported exactly then |
| ConfigImport.OthersRestored | src/ProxyLane/ConfigImport.cpp:243-291 | a run that is not reported although its only change lost the file, as another program had written the old bytes again |
| ConfigImport.LegitimateUndisturbed | src/ProxyLane/ConfigImport.cpp:267-270 | for all answers: if nobody writes between the swap and the restoring, no configuration of others is overwritten |
| ConfigImport.ImportSucceeds | src/ProxyLane/ConfigImport.cpp:253-297 | with all calls working and nobody else writing before the swap, the import is done |
| ConfigImport.Pending.Prepare | src/ProxyLane/ConfigImport.cpp:158-185 | succeeds exactly if its calls do; the imported bytes are staged, the configuration is left alone, and whether it existed is noted |
| ConfigImport.Pending.ArmRestart | src/ProxyLane/ConfigImport.cpp:211-237 | succeeds exactly if the calls do and the file is there or not as before and writable; then there is a verified backup of what the configuration held when the lock was released, and a suspended child |
| ConfigImport.Pending.SwapLocked | src/ProxyLane/ConfigImport.cpp:266-278 | computes the swap: the configuration is replaced only if it still is what was backed up, only by the staged bytes |
| ConfigImport.Pending.RestoreLocked | src/ProxyLane/ConfigImport.cpp:238-252 | computes the restoring: success means that the configuration is what it was, by one recorded change if it was not |
| ConfigImport.Pending.FinishAfterShutdown | src/ProxyLane/ConfigImport.cpp:253-316 | with other programs writing whenever the lock is free, the outcome, the reports, every change, and what the configuration holds whenever the lock is taken and released are those of the run; a ready child is left exactly with a started import |
| Base64Codec.DecodeUndoesEncode | src/ProxyLane/Base64.cpp:87-236 | decoding an encoding gives the bytes back, for every byte sequence, both flags and every table of 64 different characters |
| Base64Codec.OthersAreSkipped | src/ProxyLane/Base64.cpp:212-217 | characters outside the table can be inserted anywhere without effect |
| Base64Tables.StandardIsTable | src/ProxyLane/Base64.cpp:43 | the standard table has 64 different characters, each at its position in the alphabet of section 4 of RFC 4648 |
| Base64Tables.PrivateIsTable | src/ProxyLane/Base64.cpp:42 | so has the private one |
| Base64Standard.EncodesAsRfc4648 | src/ProxyLane/Base64.cpp:87-173 | with the standard table, padding and no line breaks the encoding is that of section 4 of RFC 4648, defined there bit by bit |
| Base64Standard.EncodesStream | src/ProxyLane/Base64.cpp:87-173 | for every table, with and without padding, the encoding without line breaks is the stream of bits in groups of six |
| Base64Standard.EncodesWithBreaks | src/ProxyLane/Base64.cpp:129-134 | with line breaks it is the same text with CRLF after every 76 characters of the complete groups |
| Base64Standard.DecodesStream | src/ProxyLane/Base64.cpp:188-236 | any number of digits is decoded to the whole bytes of its stream of bits |
| Base64.RequiredLengthIs | src/ProxyLane/Base64.cpp:63-85 | the size formula in closed form, with the padded length that counts the line breaks |
| Base64.WritesFit | src/ProxyLane/Base64.cpp:107-169 | every write, the line break that is taken back included, lies within that size |
| Base64.EncodedLinesAreShort | src/ProxyLane/Base64.cpp:129-134 | with line breaks no line is longer than 76 characters (section 6.8 of RFC 2045) |
| Base64.EncodedLength | src/ProxyLane/Base64.cpp:63-173 | the result fits into the required length |
| Base64.Encode | src/ProxyLane/Base64.cpp:87-173 | the pointer loops write exactly the encoding into any buffer of the required size |
| Base64.DecodeChar | src/ProxyLane/Base64.cpp:175-186 | finds the first place of a character in the table, or -1 |
| Base64.Decode | src/ProxyLane/Base64.cpp:188-236 | the pointer loops write exactly the decoded bytes |
| CatalogCache.ApplicationCatalogCache.HeldIsThere | src/ProxyLane/ApplicationCatalogCache.cpp:5-15 | a load is there exactly as long as the cache, its worker or a caller holds it, it is freed at most once, and at most one load is unfinished |
| CatalogCache.ApplicationCatalogCache.Complete | src/ProxyLane/ApplicationCatalogCache.cpp:31-34 | a worker finishes its load, keeping every count |
| CatalogCache.ApplicationCatalogCache.Remember | src/ProxyLane/ApplicationCatalogCache.cpp:56-66 | keeps the latest load exactly if it has succeeded |
| CatalogCache.ApplicationCatalogCache.Ready | src/ProxyLane/ApplicationCatalogCache.cpp:67-72 | hands out a finished and successful load that is still there, or none |
| CatalogCache.ApplicationCatalogCache.Workers | src/ProxyLane/ApplicationCatalogCache.cpp:31-36 | whatever the workers do in between keeps every count, and a load is done from when its worker has finished |
| CatalogCache.ApplicationCatalogCache.Acquire | src/ProxyLane/ApplicationCatalogCache.cpp:73-105 | hands out the latest load if and only if there is one, and at the second look it is not done, or a result is kept and no refresh asked for; otherwise a new one, if there is memory for it, with workers moving between its locked regions |
| CatalogCache.FinishedScanIsDropped | src/ProxyLane/ApplicationCatalogCache.cpp:75-93 | a run in which a scan that has just succeeded is dropped for a new one |
| AsyncSnapshot.AsyncSnapshot.Accept | src/ProxyLane/AsyncSnapshot.h:27-36 | a request is refused exactly while a worker runs or a result waits |
| AsyncSnapshot.AsyncSnapshot.Finish | src/ProxyLane/AsyncSnapshot.h:47-49 | a result counts unless it was cancelled meanwhile |
| AsyncSnapshot.AsyncSnapshot.FailToStart | src/ProxyLane/AsyncSnapshot.h:53-57 | a thread that cannot start leaves no worker |
| AsyncSnapshot.AsyncSnapshot.Take | src/ProxyLane/AsyncSnapshot.h:59-63 | in every interleaving what is taken is the result of the latest accepted request, with no cancellation in between |
| AsyncSnapshot.AsyncSnapshot.Cancel | src/ProxyLane/AsyncSnapshot.h:69-74 | drops the result and disowns the worker |
| AsyncSnapshot.TakenOnce | src/ProxyLane/AsyncSnapshot.h:59-63 | between two results that are taken a request is accepted, so none is taken twice |
| AsyncSnapshot.Append | src/ProxyLane/AsyncSnapshot.h:27-74 | the log of events stays in order, with at most one worker outstanding |
| InstalledApplications.SameDirectoryKey | src/ProxyLane/InstalledApplications.cpp:70-78 | two directories have the same key if and only if they agree up to case, the kind of slash, and separators at the end |
| InstalledApplications.SameKeyMeans | src/ProxyLane/InstalledApplications.cpp:101-108 | two applications have the same key if and only if they are the same packaged one, or the same program but for case and slashes with exactly the same arguments |
| InstalledApplications.SameSourceMeans | src/ProxyLane/InstalledApplications.cpp:88-89 | two sources are the same if and only if their kinds are and their paths are but for case |
| InstalledApplications.UnionMerges | src/ProxyLane/InstalledApplications.cpp:80-96 | no source is lost or invented, and none is added twice |
| InstalledApplications.MergeSources | src/ProxyLane/InstalledApplications.cpp:80-96 | the nested loops compute that union |
| InstalledApplications.AddKeepsApart | src/ProxyLane/InstalledApplications.cpp:98-131 | entries with one key stay different launches: none packaged, all with directories that differ after normalisation |
| InstalledApplications.DeduplicatedApart | src/ProxyLane/InstalledApplications.cpp:384-391 | the same for a whole list, so a key has one entry or entries with pairwise different directories |
| InstalledApplications.DeduplicateTwice | src/ProxyLane/InstalledApplications.cpp:384-391 | deduplicating twice changes nothing more |
| InstalledApplications.NothingIsLost | src/ProxyLane/InstalledApplications.cpp:109-131 | every application is represented by an entry with its key, its directory and all of its sources |
| InstalledApplications.NothingIsInvented | src/ProxyLane/InstalledApplications.cpp:80-96 | every source of an entry comes from an application with the same key |
| InstalledApplications.EntryIsApplication | src/ProxyLane/InstalledApplications.cpp:111-130 | every entry is one of the applications, with its name, target, arguments, icon and sources, and its directory if it has one |
| InstalledApplications.AddToIcons | src/ProxyLane/InstalledApplications.cpp:121-130 | the icon of a merged application is spare, any other is kept with its entry |
| InstalledApplications.LongerIndex | src/ProxyLane/InstalledApplications.cpp:127-129 | the index lists exactly the positions of each key, in ascending order |
| InstalledApplications.Catalog.FindCandidate | src/ProxyLane/InstalledApplications.cpp:109-115 | the index leads to the first entry that can be merged with |
| InstalledApplications.Catalog.Add | src/ProxyLane/InstalledApplications.cpp:98-131 | adds or merges as specified, with every icon handle owned once or destroyed once |
| InstalledApplications.Deduplicate | src/ProxyLane/InstalledApplications.cpp:384-391 | the loop computes the deduplicated list, with the icons of the input owned or destroyed |
| BrowserLaunchWatch.ParentStarted | src/ProxyLane/BrowserLaunchWatch.h:54-62 | the parent is the listed one if that is another process, the same browser but for case in the same session, with a known time that is not later |
| BrowserLaunchWatch.SameBrowser | src/ProxyLane/BrowserLaunchWatch.h:54-62 | all ancestors are the same browser in the same session, none of them younger |
| BrowserLaunchWatch.FindRoot | src/ProxyLane/BrowserLaunchWatch.h:80-88 | climbing ends, in cycles too, at the nearest root above the process or with the proof that there is none |
| BrowserLaunchWatch.BelongsToOne | src/ProxyLane/BrowserLaunchWatch.h:78-89 | a network process belongs to at most one instance |
| BrowserLaunchWatch.StaysVisited | src/ProxyLane/BrowserLaunchWatch.h:82 | a walk that comes back to a visited process meets nothing new |
| BrowserLaunchWatch.Instances | src/ProxyLane/BrowserLaunchWatch.h:64-91 | the instances are the main processes in order, each with exactly the network processes whose nearest root it is |
| BrowserLaunchWatch.MainsAre | src/ProxyLane/BrowserLaunchWatch.h:72-75 | main processes have a number and a time and are known as such, or are of unknown role and started by none |
| BrowserLaunchWatch.NetworkFits | src/ProxyLane/BrowserLaunchWatch.h:78-87 | a network process belongs only to an instance of the same browser in the same session that is not younger |
| BrowserLaunchWatch.RootsAreMains | src/ProxyLane/BrowserLaunchWatch.h:70-77 | with every number listed once the roots are exactly the main processes |
| BrowserLaunchWatch.IncompleteInstances | src/ProxyLane/BrowserLaunchWatch.h:93-109 | lists the known instances that are not completely hooked, each as often and in the same order as the list of instances has it |
| BrowserLaunchWatch.Evaluate | src/ProxyLane/BrowserLaunchWatch.h:126-141 | a handover is suggested if and only if the observation is in time, the launched process has ended and another candidate still runs, and then exactly those that do; pending if and only if it is in time and not known to have ended |
| ProcessActions.OpenForTermination | src/ProxyLane/ProcessActions.h:18-76 | a handle that is returned stands for the very lifetime that was asked for, established by its creation time, and that may be terminated; an absent one has been seen to be gone |
| ProcessActions.TerminateAll | src/ProxyLane/ProcessActions.h:117-133 | every held process is asked to end, or needs no asking, or has an error; only held ones are asked |
| ProcessActions.WaitAll | src/ProxyLane/ProcessActions.h:134-146 | only opened targets are waited for, once each; a wait lasts at most what was left when the clock was read before it; no error means that the lifetime was seen to be over |
| ProcessActions.WaitsShareBudget | src/ProxyLane/ProcessActions.h:84-85 | all waits of a batch together take no longer than its time once for every turn of the wrapping clock, and no longer than its time if no more than one turn passes |
| ProcessActions.WaitsTooLong | src/ProxyLane/ProcessActions.h:137-140 | two waits, each for what the clock says is left, that together take longer than the time, because the clock turns in between |
| ProcessActions.SharedExactlyWithinATurn | src/ProxyLane/ProcessActions.h:84-85 | for every time and end: no sequence of waits takes longer than the time if and only if no more than a turn of the clock passes, or the time is zero |
| ProcessActions.TerminateExactProcesses | src/ProxyLane/ProcessActions.h:86-147 | opens all targets before ending any, ends only opened, permitted and supplied lifetimes, and shares its time; no error means gone |
| ProcessActions.BatchWaitsWithinBudget | src/ProxyLane/ProcessActions.h:86-147 | the bound for every number of turns, for the total of the waits of a whole batch |
| ProcessActions.BatchWaitsTooLong | src/ProxyLane/ProcessActions.h:86-147 | a whole batch over any two permitted targets that waits too long, held up for a turn of the clock after its first wait |
| ProcessActions.BatchSharesExactly | src/ProxyLane/ProcessActions.h:86-147 | no batch over these targets waits longer than its time if and only if no more than a turn of the clock passes, the time is zero, or at most one of the targets may be terminated |
| ProcessActions.OrderlyKills | src/ProxyLane/ProcessActions.h:115-133 | whatever a batch ends was opened in it, is a supplied lifetime and may be terminated |
| TickClock.SinceIsElapsed | src/ProxyLane/ExitProcessCleanup.h:32 | the difference of two readings of the wrapping clock is the elapsed time within one turn |
| ExitProcessCleanup.Judge | src/ProxyLane/ExitProcessCleanup.h:56-63 | the loop is cancelled exactly if the first error that is not a process still running is a cancellation, and goes on exactly if there is none |
| ExitProcessCleanup.RunBatch | src/ProxyLane/ExitProcessCleanup.h:43-62 | a batch gets exactly what is left of the budget and terminates only what the snapshot lists |
| ExitProcessCleanup.RoundListed | src/ProxyLane/ExitProcessCleanup.h:43-55 | through all rounds, whatever is terminated is listed by the latest snapshot before it |
| ExitProcessCleanup.QuietGrows | src/ProxyLane/ExitProcessCleanup.h:35-40 | quiet time is counted from the first of uninterrupted empty snapshots |
| ExitProcessCleanup.PacedLoopEnds | src/ProxyLane/ExitProcessCleanup.h:30-32 | rounds that each take some time, and none more than a turn of the clock less the budget, cannot go on for more rounds than the budget has milliseconds |
| ExitProcessCleanup.PacingIsExact | src/ProxyLane/ExitProcessCleanup.h:30-32 | that bound on a round is exact: with one millisecond more a loop within the budget can be longer |
| ExitProcessCleanup.StandingClockGoesOn | src/ProxyLane/ExitProcessCleanup.h:26-41 | with a clock that stands still there are runs of any number of rounds that neither time out nor are quiet for long enough |
| ExitProcessCleanup.Run | src/ProxyLane/ExitProcessCleanup.h:20-66 | complete only after empty snapshots without interruption over 500 milliseconds, timed out only when the one budget is spent, cancelled or failed only on a cancel event or the first error of a batch that says so; and it has ended after as many rounds as the budget has milliseconds if they are paced |

## Left out

- Painting, layout, accessibility, selection and scroll positions, dialogs and localized messages.
- `CommandLineToArgvW`: the undocumented meaning of doubled quotes inside a quoted part is not modelled; no argument that the printer quotes contains them, while raw arguments can.
- Code-page details: characters are Dafny characters, NUL and over-long lines are not modelled, and case folding is an abstract function for each character (for option names, on strings that it maps as it should).
- `ExpandLaunchEnvironment`, icons and the COM calls that write a link: foreign calls.
- `RecentApplications::Resolve`, `ResolveShortcut` and `IsProxyLaneExecutable`: functions of the shell model.
- `CBase64::DecodeW`: the same loop as `Decode` over wide characters.
- Process list: setting texts and deleting rows in the native list is taken to work; inserting rows and sorting can fail. The query for hooked processes is a parameter.
- Process list: the exclusion of windows that are being tracked is one flag, and the timers are the calls of `PollProcessList`.
- ProcessPage.ProcessPage.AppendProcessTree: recursion depth is not bounded, while the native stack is.
- Log: the list of loader diagnostics, copying, and closing the page.
- Base64.Encode: sizes for which `n * 4` overflows are excluded, as nothing is promised there.
- ConfigStorage.Update: writers that ignore the lock are part of the model, but then only the changes made by the program itself are described.
- ConfigImport.Pending.Prepare: whether the configuration existed is promised only while nobody else writes, as the file can come and go right after the query; reading, decoding and validating the imported text is one parameter; `SameFile` and the names of backup files are not modelled.
- ConfigImport: the switch between portable and user storage, and the destructor, which ends a child that was never resumed.
- Error codes are told apart only where the code does so.
- CatalogCache: the cancel event and the releases at process exit.
- AsyncSnapshot.AsyncSnapshot.Finish: the time a query took is not recorded.
- InstalledApplications.SameKeyMeans: paths with a line break in them are left out, as file names have none.
- InstalledApplications: enumeration of the shell folders, and `Clone`.
- BrowserLaunchWatch: `Classify`, which is a function of the tokenizer, and `Supported`.
- ConfigImport.LegitimateWhateverHappens: the names of the program's own files are taken to be free, the staged file to be intact and the backup to exist, as `Prepare` and `ArmRestart` leave them.
- LaunchShortcut.CreatedIsRead: entries without any target are left out, as the resolver of entries gives none.
- ProcessWorld: a failed query for a creation time or for a critical process reports an error of its own, never success, not found or an invalid parameter.
- ExitProcessCleanup.Run: the endless loop is cut after any number of rounds; that it ends is stated for rounds that take time and are not too long, with the exact bound (`PacingIsExact`), since a clock that stands still keeps it going (`StandingClockGoesOn`).
- Proxy hooks, interception, protocol history, injection, elevation and pipes are not part of this model.
