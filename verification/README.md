# Protocols of the Linux namespace examples

These Dafny files model the programs of the repository that coordinate several processes, and the code
around them that builds and takes apart strings in C buffers. They prove what every run of these programs
keeps, how every run ends, and what the strings are worth.

The kernel is modelled as far as the programs lean on it: pipe ends copied by fork and dropped by close and
exit, end-of-file only when nobody holds the write end, semaphores with one adjustment for each process,
zombies with one pending SIGCHLD, descriptors that get the lowest free number, message queues ordered by
priority or selected by type. Programs made of several processes are transition systems over the calls they
make, one call a step, in every interleaving; a call that the source checks may fail at any time. Code of one
process that works by changing variables and buffers is written as methods with loops, on arrays and classes.

| file | what it models |
|---|---|
| Runs.dfy | runs as lists of events, invariants over runs, bounds on their length |
| Text.dfy | splitting, joining, replacing, C strings, decimal numerals |
| Pipes.dfy | pipe ends held by processes |
| CmdLine.dfy | shns3.c: the list of maps and the command lines of newuidmap and newgidmap |
| Shns3.dfy | shns3.c: father and two children around two pipes |
| UsernsExec.dfy | userns_child_exec.c: options, map strings, the files written |
| Handshake.dfy | userns_child_exec.c: parent and child around end-of-file on a pipe |
| SemUndo.dfy | semns.c: the semaphore under any number of processes |
| Semns.dfy | semns.c: father and child, how every run ends |
| SemnsFailures.dfy | semns.c: how runs end when calls fail |
| Mailbox.dfy | prodcons.c, prodcons4.c: the shared zone, byte by byte |
| Startup.dfy | prodcons4.c, prodcons.c: start-up and clean-up of the shared objects |
| EarlyConsumer.dfy | prodcons4.c: consumers that come while the producer starts |
| Queues.dfy | prodcons3.c, prodcons2.c: the message queues, and the comparison with the zone |
| Reaper.dfy | reaper.c: capturing signals, the SIGCHLD handler |
| GetNsIds.dfy | getnsids.c: the code with its error paths, descriptors and child |
| IdExchange.dfy | getnsids.c: father and child after fork |
| Execns.dfy | execns.c: the argument parser, select_ns, the entry loop |

## What came out

Properties that do not hold in their simple form, with the condition under which they do:

- shns3: child2 may execute the shell with the token although a mapping failed, because the status of child1
  is not looked at (shns3.c:537); with the token, both maps are installed exactly when that status is 0
  (`Shns3.MapsIffStatusZero`, and the run of `Shns3.TokenWithoutMaps`).
- shns3: a zero-byte read is taken for a token (shns3.c:489-498); it happens exactly when the father ended
  without writing one (`Shns3.ShellWaitsForFather`, `Shns3.ShellAfterEndOfFile`).
- shns3: the buffer of make_cmdline holds the whole line exactly when the pid has at most 8 characters
  (`CmdLine.RoomIffEightCharacters`, and the pid of `CmdLine.NineCharactersAreCut`). A longer one, which only the
  indeterminate variable after a zero-byte read can be, cuts the line, and `l` wraps before a further snprintf
  exactly when it has more than 9 characters more than the last map (`CmdLine.MakeCmdline`).
- reaper: a program that the handler ends does so through its error exit exactly when fork has not been called yet,
  or the shell was reaped between the return of fork and the assignment of pid_sh (`Reaper.ErrorExitIff`,
  `Reaper.ErrorExitHasCause`). Both happen: before fork by the death of a child inherited through exec
  (`Reaper.InheritedChildDies`) or by a SIGCHLD sent with kill (`Reaper.SignalSentBeforeFork`); after it in the run of
  `Reaper.ShellReapedInWindow`. With fork and the assignment in one step and SIGCHLD held back until then, neither
  does (`Reaper.NeverEchild`). The condition supposes that the number of a shell reaped so is not given to an orphan;
  if it is, the program may end with that orphan and status 0 (`Reaper.OrphanTakenForShell`).
- reaper: a child that was dead already when SIGCHLD got captured stays a zombie until another signal comes
  (`Reaper.InheritedZombieStays`); every other zombie has a signal pending or the loop running (`Reaper.NoLostZombie`).
- getnsids: when the father's connect fails after fork, the father waits in its error path for a child that
  waits for the connection (`IdExchange.HangsIffConnectFails`, and the run of `IdExchange.ConnectFailureHangs`).
- getnsids: main's status 0 stands for a translation by the target's namespaces unless one of these namespaces
  cannot be entered, for which getnsids returns 1 and main takes that for a success (`GetNsIds.RefusedNamespaceLooksFine`),
  or a comparison of namespaces fails, as for a target that does not exist, and the exchange then succeeds in the
  caller's own (`GetNsIds.MissingTargetLooksFine`); in no other case (`GetNsIds.MainStatusRightIff`,
  `GetNsIds.StatusZeroIff`). The comment at getnsids.c:433-434 promises -1; the model follows the code. The branch for a
  socket name that does not fit is never taken (`GetNsIds.PathsFit`).
- execns: it goes on without entering a namespace whose comparison fails, so that for a target that does not exist it
  enters none (`Execns.AllEnteredIff`, `Execns.MissingTargetIsIgnored`).
- userns_child_exec: a failed write of a map file ends the parent, and the child then executes its command
  (`Handshake.RunsWithoutMaps`); all requested writes have been done at that point exactly when none of a map file
  failed (`Handshake.ChildWaitsForMaps`).
- prodcons4: the producer clears the zone without the semaphore, which does no harm; but a consumer that reads the
  zone before ftruncate is ended by SIGBUS and keeps the semaphore, and the producer's first P then blocks for ever.
  The loop starts from a state of the mailbox exactly when that has not happened (`EarlyConsumer.MailboxUnlessFault`,
  `EarlyConsumer.FaultLocksForGood`, and the run of `EarlyConsumer.FaultingConsumer`).
- prodcons4: with -d, a consumer that opens its objects between the creation of the new segment and the removal of the
  old semaphore is not excluded by the producer's, and can print a torn date (`EarlyConsumer.TornDate`).
- semns: without SEM_UNDO a father that fails after its P leaves the lock behind and the child blocked for ever
  (`SemnsFailures.ChildLeftBlocked`); a run blocks only if a process ended or unshared with the lock, and with SEM_UNDO
  never (`SemnsFailures.EveryRunEnds`, `SemnsFailures.BlockedHasCause`).
- prodcons4: a start without -d that finds only the semaphore fails and leaves a segment behind, so that later
  starts without -d fail too (`Startup.FailedStartSticks`, and the objects of `Startup.SemaphoreAloneSticks`).

## Model

| member | source | states |
|---|---|---|
| CmdLine.MapList.AddMap | shns3.c:84-103 | the new map is added behind the others, whose contents are kept; a failed allocation gives -1 with the count already raised |
| CmdLine.Snprintf | shns3.c:162-164 | writes as much as fits, a NUL behind it, nothing in front; returns the length needed |
| CmdLine.CmdlineSize | shns3.c:138-147 | the size given to malloc, over any number of maps |
| CmdLine.Append | shns3.c:161-168 | one snprintf, of any text: the buffer then holds all that was printed as far as it has room, and l is the room left, modulo the width of size_t |
| CmdLine.WriteMaps | shns3.c:159-169 | the loop, for a pid of any length d: the maps in order joined by single spaces, cut where the buffer ends; l is 9 - d modulo the width of size_t; p leaves the buffer before the last snprintf if and only if d exceeds the last map by more than 9 |
| CmdLine.MakeCmdline | shns3.c:123-173 | for every pid: the buffer is command, pid and maps joined by single spaces, cut to the size reserved; for a pid of d <= 8 characters it is the whole line and the remaining count is 9 - d >= 1; NULL exactly when malloc fails |
| CmdLine.NineCharactersAreCut | shns3.c:142-154 | a pid of 9 characters with which the last character of the line is lost |
| CmdLine.WrapsOnlyBehindShortMap | shns3.c:154-168 | for a 32-bit pid_t, the count wraps before a further snprintf only if the last map has at most one character |
| CmdLine.RoomIffEightCharacters | shns3.c:138-147 | the reserved size holds the line and its NUL if and only if the pid has at most 8 characters |
| CmdLine.KernelPidFits | shns3.c:141-142 | every pid Linux gives out has at most 8 characters |
| CmdLine.LineRoundTrip | shns3.c:154-169 | splitting the line at spaces gives back command, pid and the fields of the maps in order, and the pid field denotes the pid |
| Shns3.NoDeadlock | shns3.c:388-404 | in every reachable state some process can go on without a failure until all have ended, although child2 inherits the write end child1 waits on |
| Shns3.EveryRunEnds | shns3.c:376-573 | every run has at most 27 calls, and is stuck exactly when the father and every forked child have ended, whichever error exit was taken |
| Shns3.ShellWaitsForFather | shns3.c:480-552 | past its read, child2 has the token, and then child1 has ended and been reaped, or end-of-file, and then the father ended without writing; nobody but the father can hold the write end |
| Shns3.MapsIffStatusZero | shns3.c:536-542 | with the token, both maps are installed on child2's pid, in order, if and only if child1's status is 0 |
| Shns3.CommandsNameChild2 | shns3.c:398-430 | every command is run on child2's own pid unless the father ended before sending it |
| Shns3.Pid2IsForked | shns3.c:480 | the father's variable child2 holds what its second fork returned |
| Shns3.ShellInNewNamespaces | shns3.c:471-498 | in every reachable state a forked child2 is in the new namespaces and child1 is not; a father that is not in them has forked no child2 |
| Shns3.StatusOneIffFailed | shns3.c:376-563 | the father, and child1, end with status 1 if and only if one of their checked calls has failed |
| Shns3.Child2Fails | shns3.c:489-501 | a failed read or execve ends child2 with status 1 |
| Shns3.GoodRun | shns3.c:374-573 | when nothing fails, with and without the user namespace: the shell is executed only in the new namespaces, with the token, and after newuidmap and then newgidmap on child2's pid; such runs end with status 0 and the children reaped |
| Shns3.CommandWords | shns3.c:407-430 | the words of a command are the tool, child2's pid in decimal, and the fields of the maps |
| Shns3.TokenWithoutMaps | shns3.c:536-556 | a run in which the shell is executed with the token after newuidmap failed |
| Shns3.ShellAfterEndOfFile | shns3.c:489-498 | a run in which the shell is executed after a zero-byte read and no mapping |
| UsernsExec.UpdateMap | userns_child_exec.c:82-109 | commas become newlines in place, what follows the NUL is untouched, and the rewritten string is what is written |
| UsernsExec.RecordsKept | userns_child_exec.c:88-93 | length kept; the newline records are the comma records, for text without newline |
| UsernsExec.ParseOptions | userns_child_exec.c:206-232 | the program goes on if and only if -z, -M, -G come with -U, -z comes without -M and -G, and no option is unknown; the last -M and -G win |
| UsernsExec.FoldOccurrences | userns_child_exec.c:211-225 | each flag is set exactly when its option occurs |
| UsernsExec.FoldLast | userns_child_exec.c:220-221 | the maps are the arguments of the last -M and the last -G |
| UsernsExec.LettersOfGetopt | userns_child_exec.c:211-222 | the letters of the options are those of the string given to getopt |
| UsernsExec.AcceptanceByOccurrence | userns_child_exec.c:211-232 | acceptance depends only on which of -U, -M, -G, -z and unknown options occur |
| UsernsExec.AcceptedLetters | userns_child_exec.c:227-232 | which sets of letters are accepted |
| UsernsExec.AcceptanceIgnoresOrder | userns_child_exec.c:227-232 | reordering the options does not change acceptance |
| UsernsExec.ParseBoth | userns_child_exec.c:206-232 | the same for the result of the option loop on two command lines |
| UsernsExec.ZeroMapWhole | userns_child_exec.c:267-270 | "0 id 1" fits map_buf for every 32-bit id |
| UsernsExec.MapZeroIsTwoMaps | userns_child_exec.c:51-52 | -z makes the same writes in the same order as -M '0 uid 1' -G '0 gid 1' |
| Handshake.ChildWaitsForMaps | userns_child_exec.c:161-175 | a child past its read has seen end-of-file; then nobody holds the write end, and the parent finished all its writes and closed it, or ended early; all writes are done if and only if none of a map file failed |
| Handshake.RunsWithoutMaps | userns_child_exec.c:95-106 | a run in which the child executes its command after the first map file could not be written |
| Handshake.EveryRunEnds | userns_child_exec.c:246-296 | every run is finite and ends with both processes ended; status 0 only after all writes |
| Handshake.StatusOneIffFailed | userns_child_exec.c:95-146 | the parent ends with status 1 if and only if pipe, clone, waitpid or the write of a map file failed; a failure with setgroups has no consequence |
| Handshake.GoodRun | userns_child_exec.c:246-296 | when nothing else fails, all writes are done, and the run ends with status 0 and a child that has seen end-of-file |
| Handshake.ChildInNamespaces | userns_child_exec.c:213-252 | the child is in new namespaces exactly for the options given |
| Handshake.WithoutCloseReadBlocks | userns_child_exec.c:166-169 | without the child's own close, its read never completes and the run ends there |
| Handshake.RecordsBeforeExec | userns_child_exec.c:206-288 | for every accepted command line, what the kernel was given by then: with -z the record "0 uid 1", else the comma-separated records of the last -M, if any; then the same for the group ids behind "deny", if any |
| Handshake.ZeroRecordsBeforeExec | userns_child_exec.c:264-284 | with -z: the one record that maps the caller's user id, and the one for the group id |
| SemUndo.UndoConserves | semns.c:95-136 | with SEM_UNDO, value plus adjustments is 1 in every run of any number of processes; each adjustment is 1 inside and 0 outside |
| SemUndo.MutualExclusion | semns.c:184-193 | at most one process inside; the value is 1 exactly when none is |
| SemUndo.LeavingReleasesIffUndo | semns.c:257-263 | when the holder exits or unshares, the semaphore is free again, and any other process can lock it, if and only if SEM_UNDO is used |
| SemUndo.LostForGood | semns.c:100-109 | without SEM_UNDO no P completes any more, whatever happens next |
| SemUndo.PlainValue | semns.c:100-133 | without SEM_UNDO the value is 0 when a process is inside or has left while it was, else 1; at most one is inside |
| SemUndo.UnlockThenLock | semns.c:95-136 | in both cases V by the process inside raises the value to 1, and then P by any process of the namespace lowers it to 0 |
| SemUndo.OnlyUnshareLeaves | semns.c:259 | every process is in the namespace of the semaphore as long as nobody unshares |
| SemUndo.UnshareShutsOut | semns.c:257-288 | after unshare neither the process nor the children it forks can use the semaphore |
| Semns.Progress | semns.c:216-288 | before its final state a run can always go on |
| Semns.Outcome | semns.c:145-298 | unshare without undo: both blocked for ever; unshare with undo: child ends, father's last P fails, semaphore left; no unshare: child reaped, semaphore removed; in every interleaving |
| SemnsFailures.EveryRunEnds | semns.c:164-298 | whichever calls fail, every run is finite and stops when both processes have ended, or one is blocked in P with the semaphore down; with SEM_UNDO both always end |
| SemnsFailures.BlockedHasCause | semns.c:95-136 | the one unit of the semaphore is lost if and only if a process has ended or unshared with the lock, without raising the semaphore; every blocked run has lost it, and with SEM_UNDO none has |
| SemnsFailures.ChildLeftBlocked | semns.c:258-272 | such a run, without SEM_UNDO |
| SemnsFailures.StatusZeroIff | semns.c:204-296 | status 0 of the father, and of the child, if and only if it has come to its regular end |
| Mailbox.StripWrites | prodcons.c:188-193 | a written date is the line ctime_r gave without its newline |
| Mailbox.ProducerVisit | prodcons.c:183-198 | a producer that finds the semaphore free leaves the whole date in the zone and the semaphore free; the date is added to those written, nothing is printed, and a date not printed yet is lost |
| Mailbox.ConsumerVisit | prodcons.c:231-250 | a consumer that finds it free prints the last date written and clears the zone, or changes nothing when none is pending |
| Mailbox.ZoneSafety | prodcons.c:183-198 | value plus processes inside is 1; outside, the zone is all zero or exactly the last date written, whole and NUL-terminated |
| Mailbox.PrintsAreWrites | prodcons.c:238-245 | the prints are a subsequence of the writes, none shown twice, none torn |
| Mailbox.WritesAreAccountedFor | prodcons4.c:278-347 | writes = prints + overwritten + 1 if the zone is not empty |
| Startup.Producer4.CleanIpc | prodcons4.c:41-82 | removes the segment, and the semaphore if it is open; exits at the first call that fails or the first object missing, and what is left then |
| Startup.Producer4.StartUp | prodcons4.c:187-273 | result and objects from any earlier objects, with and without -d, whichever call fails |
| Startup.StartEstablishesMailbox | prodcons4.c:191-273 | gets to the loop if and only if its calls succeed and -d is given or nothing exists; then zone and semaphore are the initial ones of the mailbox |
| Startup.FailedStartSticks | prodcons4.c:203-206 | after a failed start without -d no start without -d succeeds, whatever its calls return, and one with -d does if its calls succeed; unless the failed one could not create a segment |
| Startup.SemaphoreAloneSticks | prodcons4.c:207-243 | earlier objects from which that happens with no call failing |
| Startup.StartThenClean | prodcons4.c:91-93 | start with -d and clean-up leave nothing behind, so that a start without -d succeeds |
| Startup.ProducerSysV.StartUp | prodcons.c:125-158 | from any earlier segment, any contents of the new one and any failing call: result, segment, and on success the initial state of the mailbox behind the untouched bytes of the semaphore |
| EarlyConsumer.NothingPrintedEarly | prodcons4.c:254-273 | consumers of the new objects print nothing while the producer starts, and the zone they see is all zero once sized |
| EarlyConsumer.ProducerGetsReady | prodcons4.c:254-276 | the producer gets to its loop whatever consumers have done |
| EarlyConsumer.MailboxUnlessFault | prodcons4.c:235-273 | the loop starts from a reachable state of the mailbox if and only if no consumer read the zone before ftruncate |
| EarlyConsumer.FaultLocksForGood | prodcons4.c:333-340 | after such a read no P completes any more, and nothing is written or printed |
| EarlyConsumer.FaultingConsumer | prodcons4.c:304-340 | a run with such a read |
| EarlyConsumer.TornDate | prodcons4.c:191-243 | a run in which a consumer with the old semaphore and the new zone prints a part of a date |
| Queues.MqPerPriority | prodcons3.c:104-107 | POSIX queue, any priorities: sorted, bounded, and for each priority received then queued is sent |
| Queues.SysvPerType | prodcons2.c:159-163 | System V queue, any types: for each type received then queued is sent |
| Queues.Prodcons3IsFifo | prodcons3.c:136-182 | received then queued is sent, with at most 2 queued |
| Queues.Prodcons2IsFifo | prodcons2.c:125-169 | received then queued is sent |
| Queues.MqBlocksIff | prodcons3.c:136-182 | a send blocks exactly while the queue is full, a receive exactly while it is empty, and the latter gives the oldest message of the highest priority |
| Queues.SysvBlocksIff | prodcons2.c:125-169 | a send never blocks, a receive exactly while no message of the type is queued, and gives the oldest of the type |
| Queues.Prodcons3Delivers | prodcons3.c:136-182 | every list of dates can be sent and received whole |
| Queues.Prodcons2Delivers | prodcons2.c:125-169 | the same |
| Queues.TwoFillTheQueue | prodcons3.c:105 | the third date sent without a receive blocks |
| Queues.MailboxPrintsSubsequence | prodcons.c:183-250 | on the same dates, what the zone prints is a subsequence of what the queue delivers |
| Reaper.SigStr2Type | reaper.c:53-64 | the first entry with the name, or -1 |
| Reaper.SetUp | reaper.c:143-165 | goes on exactly when every argument names a signal that can be captured, and then captures just these |
| Reaper.ChldIs17 | reaper.c:26-50 | SIGCHLD is captured by the argument CHLD and no other |
| Reaper.NoLostZombie | reaper.c:87-120 | a zombie that was not one when SIGCHLD got captured means a pending SIGCHLD or a running loop; deaths = reaped + zombies; with any inherited children |
| Reaper.InheritedZombieStays | reaper.c:148-170 | a run in which an earlier zombie is left, with no signal pending |
| Reaper.NothingReapedWithoutCapture | reaper.c:148-165 | without CHLD no zombie is ever reaped |
| Reaper.ErrorExitIff | reaper.c:92-112 | a program ended by the handler has status 1 if and only if fork has not been called or the shell was reaped before pid_sh was assigned, as long as its number is not given to an orphan then; giving up before fork is status 1; otherwise the shell is a child until its reaping ends the program with 0 |
| Reaper.EarlyOnlyInWindow | reaper.c:100-112 | the shell is reaped unnoticed by exactly the waits for it before pid_sh is assigned |
| Reaper.ErrorExitHasCause | reaper.c:92-170 | every run to the error exit contains a SIGCHLD taken before fork, or a wait that reaps the shell before pid_sh is assigned |
| Reaper.NeverEchild | reaper.c:92-112 | with fork and assignment as one step: the error exit is reached only before fork, and never if no SIGCHLD is taken before it; after fork the program ends exactly when the shell has been reaped, always with 0, whatever children remain |
| Reaper.DeadShellEndsProgram | reaper.c:92-112 | once the shell has died after pid_sh was assigned, taking the signal and one wait end the program with status 0 |
| Reaper.MergedDeaths | reaper.c:87-121 | a run in which one signal stands for two deaths, and the handler reaps both |
| Reaper.GivesUp | reaper.c:157-180 | a run that ends with status 1 before fork |
| Reaper.ShellReapedInWindow | reaper.c:170-172 | a run that reaches the error exit after fork |
| Reaper.InheritedChildDies | reaper.c:156-170 | a run that reaches it before fork, with a child inherited through exec |
| Reaper.SignalSentBeforeFork | reaper.c:156-170 | a run that reaches it before fork, with a signal sent by kill and no child |
| Reaper.OrphanTakenForShell | reaper.c:104-110 | a run that ends with status 0 by an orphan with the number of a shell reaped in the window |
| Reaper.Process.Round | reaper.c:92-119 | one round of the loop is one step of the machine, and lowers the zombies or leaves |
| Reaper.Process.SigHdl | reaper.c:87-121 | the loop, with other processes dying and being adopted meanwhile, is a run of the machine, terminates, and leaves no zombie and a live child unless it exits; its error exit leaves no child |
| GetNsIds.OpenSocket | getnsids.c:46-148 | a new open descriptor on success, nothing left open on failure |
| GetNsIds.ChildGetIds | getnsids.c:314-411 | status 0 exactly when every call succeeded; on every path the accepted and the server socket are closed once |
| GetNsIds.EnterNamespace | getnsids.c:471-505 | at the jump to err, fd is the one descriptor still open, or -1 |
| GetNsIds.FatherExchange | getnsids.c:569-649 | result, stored ids, and what is left for the error path |
| GetNsIds.GetNsIds | getnsids.c:436-679 | on every path every descriptor opened is closed exactly once, waitpid is called exactly once for a forked child and never otherwise, the child is born in exactly the target's namespaces that are asked for and differ, and the result and the stored ids are given |
| GetNsIds.CleanUp | getnsids.c:656-678 | the code at err closes what is left, each descriptor once, and waits for a child that is left |
| GetNsIds.PathsFit | getnsids.c:450-482 | the paths fit their buffers for every pid_t |
| GetNsIds.MainStatusRightIff | getnsids.c:766-785 | main's status is 0 exactly for a translation by the target's namespaces if and only if these can be entered and the exchange does not succeed after a failed comparison |
| GetNsIds.StatusZeroIff | getnsids.c:471-541 | a status 0 means a translation if and only if the namespaces have been entered and no comparison asked for failed |
| GetNsIds.MissingTargetLooksFine | getnsids.c:472-473 | a call in which cmp_ns fails and main reports success |
| GetNsIds.RefusedNamespaceLooksFine | getnsids.c:493-499 | a call in which setns is refused and main reports success |
| IdExchange.ZeroMeansTranslated | getnsids.c:585-647 | result 0 implies that the stored ids are the translation by the child's namespaces, which are the target's unless a comparison failed, although a read of nothing falls through; child status 0 implies a whole write of translated ids |
| IdExchange.GoodRun | getnsids.c:569-654 | when no call fails, every interleaving ends with child status 0, the father having read the translated ids, waited, and returned 0 |
| IdExchange.ReturnsZeroIff | getnsids.c:569-678 | the father returns 0 if and only if none of its calls failed and the child's status is 0; it has waited if and only if waitpid did not fail |
| IdExchange.ChildStatusOneIff | getnsids.c:314-411 | the child's status is 1 if and only if one of its calls failed, and then nothing is written |
| IdExchange.HangsIffConnectFails | getnsids.c:577-582 | every run is finite and ends with both processes ended, except exactly when connect failed while the child was in select |
| IdExchange.ConnectFailureHangs | getnsids.c:577-582 | a run of one failed call after which both wait for ever |
| IdExchange.RunsMatchCode | getnsids.c:569-678 | in every interleaving the father's result is the one of GetNsIds.GetNsIds on what its calls returned |
| Execns.SelectNs | execns.c:44-68 | "all" selects everything, a name its entry, anything else fails and selects nothing |
| Execns.NamesRoundTrip | execns.c:83-132 | joining non-empty colon-free names and parsing gives the names back |
| Execns.ArgumentRejoined | execns.c:83-132 | the pid and the examined names joined again are the argument, but for one colon at its end |
| Execns.StrChr | execns.c:106-107 | the first colon before the NUL |
| Execns.CutName | execns.c:105-115 | writing a NUL over the colon leaves the name in front and the rest behind it |
| Execns.ParseNames | execns.c:103-126 | the names examined are the split at colons with one trailing empty piece dropped, or, if and only if one is unknown, its prefix up to the first unknown one |
| Execns.ParseArgument | execns.c:83-140 | the same for the whole argument, with the case of no name, and the pid, up to what atoi gives beyond the ints |
| Execns.ParseProgramArgument | execns.c:26-40 | the same on the program's own table: which of its namespaces are selected |
| Execns.EnterNamespaces | execns.c:149-182 | enters the selected namespaces that differ, in table order, and stops at the first failure |
| Execns.WantedMeaning | execns.c:149-158 | which namespaces these are; an error of cmp_ns counts as the same namespace |
| Execns.AllEnteredIff | execns.c:149-182 | all selected namespaces of the target are entered, or the caller's own, if and only if no comparison failed |
| Execns.MissingTargetIsIgnored | execns.c:155-158 | when every comparison fails, nothing is entered |
| Execns.AtoiExact | execns.c:139 | the pid is the number the digits denote for at most 9 digits, and for the decimal form of every int |
| Execns.TenDigitsMayFail | execns.c:139 | ten digits that denote no int |

## Left out

- CmdLine.MakeCmdline: asks for at least one map, which main guarantees (shns3.c:368); it stops where `p` leaves the buffer, from where C gives the call no meaning; texts beyond the range of the int that snprintf returns are not considered.
- Shns3: writes and reads of 4 bytes on a pipe are taken as whole; death by a signal other than SIGPIPE is not a step; the commands and the shell are assumed to end.
- Shns3: option parsing of main, except for the maps and select_ns, which execns.c has too.
- SemUndo.UndoConserves: that unshare(CLONE_NEWIPC) applies the caller's adjustments is an axiom of the kernel model, and processes call V only after P.
- Semns.Outcome: calls fail only for the reasons the state gives (no semaphore in the namespace, end-of-file, SIGPIPE); SemnsFailures.EveryRunEnds has the others, but for a SETVAL that fails behind a semget that did not.
- Mailbox: Ctrl-C while a process is inside, and failures of sem_wait and sem_post; ctime_r gives a line of at least two characters that fits the zone.
- Mailbox: the unshare(CLONE_NEWIPC) the producer of prodcons.c offers, which leaves attached memory as it is.
- Handshake: death of the parent or of the child by a signal other than SIGPIPE.
- Startup: opens without O_CREAT fail only for want of the object.
- EarlyConsumer: consumers of prodcons.c that come before its sem_init, because POSIX gives no meaning to sem_wait on a semaphore that is not initialized; consumers of prodcons4.c with an old segment and the new semaphore.
- Queues: the size limit of a System V queue, and the re-creation of the queues at start-up.
- Reaper.SetUp: the sigaction of signals other than KILL and STOP is taken to succeed; the handler's branch for other signals only prints, and changes nothing in the model.
- Reaper: a signal mask, or an ignored SIGCHLD, inherited through exec; children that stop and continue.
- GetNsIds.GetNsIds: the waitpid of the error path is taken to return; IdExchange.HangsIffConnectFails says when it does not.
- IdExchange: a write or read of part of a struct ucred.
- Execns: the child that executes the program, and the effect of setns on later path names.
- Contents of namespaces, capability rules, the id map files and /proc: real kernel behaviour, not part of this model.
- pause.c, pid.c, sem.c, socket.c, udpcli.c, udpsrv.c, setnshost.c, enter_pidns_up.c, pmsg.c, shmns.c, multi-th.c, rebootns.c, sigwait.c, orphan.c and the shell scripts: straight sequences of kernel calls, whose effect is the kernel's and not theirs.
- linfo.c, idns.c, ownerns.c, parentns.c, userns.c, fsinfo.c, cmpns.c: they print what the kernel reports, and keep no state of their own.
- clonens.c, shns.c, shns2.c: their selection of namespaces is the one of execns.c and shns3.c.
