# Verified model of distplusplus

distplusplus distributes C and C++ compile jobs. A client parses the compiler command line, looks for a
server with a free job slot, reserves the slot, and sends the preprocessed source with the remaining
arguments; the server filters the arguments and compiles. This project models three parts of it in Dafny
and proves what they promise over all inputs and all runs.

**The job-slot protocol** (`Protocol*.dfy`, `Reservations.dfy`, `JobServer.dfy`, `Sending.dfy`,
`SendingSlots.dfy`). `Protocol` is a transition system for any number of Reserve handlers, any number of Distribute handlers and the reaper
around a lock-free 64-bit counter and a list of reservations under a lock. One step is one atomic action: the
capacity test, the load and the exchange of Reserve are three steps; taking the lock, reading the clock,
inserting and unlocking are separate; the erase of Distribute and the release of its slot lie apart, with all
return paths between them; the reaper's erase and subtraction are separate too. The system clock may be set to
any value; each claim about timing says what it asks of the clock. `JobServer` holds the same shared state in a
class that carries the run it has made: every atomic action, with the scope guard, is a step of that run, and an
uninterrupted call prolongs it from idle to the answer. `Sending` is the client's loop over several servers, and
`SendingSlots` puts it together with the cache and with one run of the slot protocol per server, in which any
handler may serve any call and replies may get lost.

The UUIDs that Reserve draws are taken to be distinct, as those of version 4 in section 4.4 of RFC 4122 are in
practice; `ProtocolHistory.ClaimBalancedExactlyWhen` shows why this is needed. The counter wraps at 2^64, and
the model lets it: `ProtocolBounds.ConservationExactlyWhen` says exactly when it never does.

**The argument pipeline** (`Flags.dfy`, `Paths.dfy`, `Tokens.dfy`, `ClientParser.dfy`, `ClientOptions.dfy`,
`ArgumentFiles.dfy`, `ParserSummary.dfy`, `ServerParser.dfy`, `Pipeline.dfy`). The client's parser is a class whose
loop, with its recursion through `@file`, is proved to play a script of recognised items, and `ClientOptions` says
for every kind of argument, as the user writes it, what it does; the server's parser is a class whose loop is proved
to be a recursive filter. The file system is a fixed map from path to content. Ranks of argument
files are only a witness that reading ends: any two that work give the same result.

**The client's server cache** (`ServerStore.dfy`, `ServerCache.dfy`). The flat key-value store is proved to
represent one record per server, and the start-up refresh is a method on that store.

`Wrappers.dfy` and `Totals.dfy` hold what the modules share.

Three findings are worth knowing:

- With the test and the load of the slot counter as separate reads, `jobsMax` slots is not a bound. The exact
  bound is `jobsMax - 1` plus the number of concurrent Reserve handlers, and it is attained. With one read the
  plain cap holds. Nor is a refusal a sign of a full server: the exchange also fails when the counter has changed
  since it was loaded.
- A job that the client distributes is accepted and keeps its options on the server if and only if no value of a
  `-target` is itself an option from the server's tables and the mode is `-c` (or `-c` is such a value). With
  `-c a.c -target -I` the server lets `-I` swallow the mode. Such a target has to get past the preprocessor first,
  which the client runs on the same arguments and which is not part of this model.
- Reading through an argument file means the same as its contents in place if and only if no argument file is cut
  short: ends with an option that lacks its value while more arguments follow the reference to the file. A file
  that is cut short is an error, but in place the option takes the next argument as its value. Parsing that
  succeeds never cuts a file short.

Where the code comment says that the input file can be overridden with `-x` in language, the code lets the last
recognised `-x` win wherever the file stands; the model follows the code. The code never adds a compiler to an
existing list of supported compilers, although the layout comment suggests a growing list; the model follows the
code.

## Model

| member | source | states |
|---|---|---|
| Reservations.InsertSorted | src/server/server.cpp:207 | a hinted insertion keeps the reservations ordered by time stamp, whatever the clock shows |
| Reservations.InsertContents | src/server/server.cpp:207 | an insertion adds exactly the new reservation, loses none and leaves the stamps of the others alone |
| Reservations.PrefixEraseIsFilter | src/server/server.cpp:122-126 | erasing from the beginning to the lower bound removes exactly the entries earlier than the bound, and the fall in size counts them |
| Reservations.EraseUuid | src/server/server.cpp:239-241 | erasing by UUID drops every match and shrinks the list by the number of matches |
| Reservations.EraseUuidContents | src/server/server.cpp:239-241 | every other reservation stays, with its stamp, as often as it was there |
| Reservations.EraseUuidSorted | src/server/server.cpp:239-241 | a claim leaves the reservations in order |
| Reservations.ClaimUndoesInsert | src/server/server.cpp:207-241 | claiming what was just inserted under a new UUID restores the list exactly |
| ProtocolSafety.LockMoveExcludes | src/server/server.cpp:120-246 | every step keeps the lock exclusive: its owner is exactly the participant inside a critical section |
| ProtocolSafety.InvStep | src/server/server.cpp:115-248 | every step of every participant keeps order, exclusion, the balance of the counter and the account of every UUID |
| ProtocolSafety.Invariant | src/server/server.cpp:115-327 | these hold after every run from the start of a server |
| ProtocolBounds.OverAdmission | src/server/server.cpp:199-202 | the counter plus the handlers between test and exchange never exceed the maximum minus one plus the number of Reserve handlers |
| ProtocolBounds.BoundAttained | src/server/server.cpp:199-202 | for every maximum and every number of handlers there is a run in which all that crowd the last slot get one |
| ProtocolBounds.OverAdmissionIsExact | src/server/server.cpp:199-202 | a number bounds all runs if and only if it is at least that bound |
| ProtocolBounds.PlainCapExactlyWhen | src/server/server.cpp:200-202 | the configured maximum is never exceeded if and only if at most one Reserve handler runs at a time, or the 64-bit counter can show no more |
| ProtocolBounds.FusedReadKeepsCap | src/server/server.cpp:199-202 | with test and load in one read the counter never exceeds the configured maximum, for any number of handlers |
| ProtocolBounds.SlotsConserved | src/server/server.cpp:121-248 | the counter equals reservations, slots between exchange and insertion, claims not yet released, and entries erased but not yet subtracted |
| ProtocolBounds.DecrementsDoNotWrap | src/server/server.cpp:127-248 | whenever a slot is given back, on every return path and in the reaper, the counter is large enough |
| ProtocolBounds.ConservationExactlyWhen | src/server/server.hpp:45-47 | the 64-bit counter is exact in all reachable states if and only if the over-admission bound fits into 64 bits |
| ProtocolHistory.UsedAtMostOnce | src/server/server.cpp:202-248 | every issued UUID is in exactly one of in flight, pending, claimed and reaped, no two Distribute handlers hold the same, and the classes add up to the exchanges won |
| ProtocolHistory.ClaimNeedsGrant | src/server/server.cpp:237-248 | a Distribute handler is past the claim only for a UUID that a Reserve handler inserted earlier in the run and that is neither pending nor reaped |
| ProtocolHistory.ReaperTakesExactlyTheStale | src/server/server.cpp:121-127 | in every reachable state the reaper's erase takes exactly the reservations older than its bound and owes as many slots |
| ProtocolHistory.GrantIsBacked | src/server/server.cpp:203-213 | a Reserve call that answers with a UUID stands for exactly one reservation, pending, claimed or reaped |
| ProtocolHistory.CallTakesWhatItSays | src/server/server.cpp:196-219 | over its whole run a Reserve call takes one slot if it grants and none if it refuses |
| ProtocolRefusals.RefusedExactlyWhen | src/server/server.cpp:199-219 | in every run a call stands refused if and only if its last step was a test that found no room, or an exchange before which the counter had changed since the load; it reports the maximum or the value it met |
| ProtocolRefusals.RefusedWithRoom | src/server/server.cpp:201-202 | a call can be refused by the exchange although a slot is free |
| ProtocolHistory.ClaimBalancedExactlyWhen | src/server/server.cpp:239-248 | a claim keeps the counter balanced if and only if its UUID matches one reservation |
| ProtocolDrain.WorkDecreases | src/server/server.cpp:196-327 | every step of an outstanding handler decreases a measure that no other step increases |
| ProtocolDrain.HandlersFinish | src/server/server.cpp:196-327 | without new requests, however scheduled and however the clock is set, the handlers take at most as many steps as that measure says, and after that many all are idle |
| ProtocolDrain.Progress | src/server/server.cpp:120-246 | while a handler is outstanding some participant can step: there is no deadlock |
| ProtocolDrain.ReaperEmpties | src/server/server.cpp:115-134 | with all handlers idle and no new requests, any run with two subtractions of a reaper whose iterations begin after the last stamp by the clock ends with no reservation and counter zero |
| ProtocolDrain.Drain | src/server/server.cpp:115-248 | from every reachable state the handlers can finish and two reaper iterations on an advancing clock empty the server |
| ProtocolTiming.ReapedNoEarlierThanTimeout | src/server/server.cpp:117-127 | on any system clock that never runs back, a reservation that is reaped was stamped at least the timeout ago in true time, and longer ago unless the clock was set forward in no time |
| ProtocolTiming.ReapedOnlyAfterTimeout | src/server/server.cpp:117-127 | on a system clock that is only ever set forward, a reservation that is reaped is older by that clock than the timeout |
| ProtocolTiming.ReapedIsOverdue | src/server/server.cpp:117-127 | on a clock that never runs back, for whatever a run has reaped the timeout has truly passed since it was stamped |
| ProtocolTiming.ClaimInTimeSucceeds | src/server/server.cpp:117-247 | on such a clock a reservation that was made and not claimed is still pending before the timeout, so that handing it in succeeds |
| ProtocolTiming.GoneAfterTwoPeriods | src/server/server.cpp:117-207 | if an iteration of the reaper takes at most a period and the clock is only set forward, no reservation stays pending longer than two periods of true time after it was stamped, and by its stamp if the clock is not set; none escapes because it is stamped under the lock |
| ProtocolTiming.EnabledExactlyWhen | src/server/server.cpp:115-248 | in every run a handler waits for nothing but a lock that is held, and the reaper besides only until the timeout has passed since it read its bound, and exactly so long |
| ProtocolTiming.PromptRuns | src/server/server.cpp:117-132 | any number of iterations can take exactly the timeout each, which is what the bound of two periods is about |
| JobServer.Server.CompareExchange | src/server/server.cpp:202 | the exchange succeeds exactly if the counter is as expected, and is a step of the server's run |
| JobServer.Server.EmplaceReservation | src/server/server.cpp:206-208 | adds one reservation in order, as a step of the server's run |
| JobServer.Server.TakeSlot | src/server/server.cpp:199-202 | test, load and exchange without interruption win a slot exactly if there is room |
| JobServer.Server.InsertLocked | src/server/server.cpp:205-208 | lock, clock, insertion and unlock are the four steps of the run that lead to the answer |
| JobServer.Server.ClaimReservation | src/server/server.cpp:237-247 | reports whether some reservation carries the UUID and removes it, as a step of the server's run |
| JobServer.Server.EraseBefore | src/server/server.cpp:122-126 | leaves exactly the reservations not earlier than the bound and counts the others, as a step of the server's run |
| JobServer.Server.Reserve | src/server/server.cpp:196-219 | an undisturbed call prolongs the run from idle to its answer: it takes one slot and inserts one reservation if there is room, else changes nothing and reports the maximum |
| JobServer.Server.Distribute | src/server/server.cpp:227-327 | an undisturbed call prolongs the run from idle to its reply: it gives a claimed slot back once on every way out, and changes nothing for an unknown UUID |
| JobServer.Server.Reap | src/server/server.cpp:117-132 | an undisturbed iteration prolongs the run and takes exactly the timeout: it removes the stale reservations and subtracts their number |
| JobServer.ScopeGuard.Destroy | src/common/scopeguard.hpp:21-26 | an armed guard gives one slot back at the end of its scope, as the release step of the run; a defused one does nothing |
| JobServer.ReserveThenDistribute | src/server/server.cpp:196-327 | handing in a reservation restores counter and reservations exactly, on every way out |
| JobServer.ServerConservesSlots | src/server/server.hpp:45-47 | whatever calls a server has been through and whichever are under way, its counter is the number of slots held and keeps the over-admission bound |
| Sending.SweepMeans | src/client/client.cpp:314-345 | what each kind of sweep says about the replies to all its attempts |
| Sending.Client.TryReserve | src/client/client.cpp:287-301 | stores the UUID of a successful reply, and throws exactly for success without a UUID |
| Sending.Client.SweepServers | src/client/client.cpp:314-345 | one sweep asks the servers in order, up to the first that grants or replies brokenly, and makes no other calls |
| Sending.Client.Send | src/client/client.cpp:304-387 | the exact log of calls over all sweeps; the compile answer of the chosen server exactly if one granted and Distribute succeeded, and each fallback exactly in its case; sweeps go on strictly before the timeout; against servers that follow Reserve as many calls grant as go on to Distribute, at most one, with the stored UUID |
| Sending.ExitsClassified | src/client/client.cpp:310-361 | the fallback for want of any server occurs exactly if nobody answered in the first sweep; every other exit is a grant, the timeout or a malformed reply |
| Sending.FirstToGrant | src/client/client.cpp:313-328 | the chosen server is the first in order of load to grant in its sweep, every earlier attempt having been refused |
| Sending.HandlersFollow | src/server/server.cpp:209-219 | the protocol's Reserve handlers reply as the client assumes: a grant is one slot, a refusal none |
| SendingSlots.SlotsTakenAreAnswered | src/server/server.cpp:196-219 | over a whole run of a server, any set of calls, served by whichever handlers, takes exactly the slots it is answered with, apart from those about to be answered with |
| SendingSlots.SlotsOfBoth | src/server/server.cpp:196-219 | different calls take their slots separately |
| SendingSlots.AnswersAreSettled | src/server/server.cpp:202-213 | every UUID a call was ever answered with stands for exactly one reservation |
| SendingSlots.SlotsTakenOverall | src/client/client.cpp:287-361 | the slots a client's calls took in the runs of all its servers are as many as the granting replies it got, and those whose reply did not reach it |
| SendingSlots.SendOnce | src/client/client.cpp:304-387 | over all servers' runs and all sweeps one call takes exactly one slot if it goes on to Distribute, else none, but for slots of lost replies; the UUID it hands in is the reservation of the chosen server, whose answer is the result if Distribute succeeds |
| SendingSlots.StartAndSend | src/client/client.cpp:42-387 | a process on the store that an earlier one left sends its job to a server of the refreshed store, the first by load to grant, and takes one slot so |
| Flags.MultiIsNotSingle | src/common/constants.hpp:27-68 | no option that takes its value from the next argument is in the table of one-part preprocessor options |
| Flags.MultiIsNotRefused | src/common/constants.hpp:65-110 | no option that takes its value from the next argument prevents distribution |
| Flags.SpecialIsInert | src/common/constants.hpp:27-110 | arguments without a dash, and the options the client treats specially, are in no table of the server |
| Flags.KnownExtension | src/common/constants.hpp:112-123 | the table of input extensions is the union of those of C and of C++ |
| Flags.TablesMean | src/common/constants.hpp:27-110 | which arguments prevent distribution, are one-part or two-part preprocessor options, in terms of the tables |
| Paths.StemAndExtension | src/client/parser.cpp:23-177 | stem and extension make up the file name, and an extension is one last dotted part |
| Paths.NameAfterSlash | src/client/parser.cpp:22-166 | the file name is what follows the last slash |
| Paths.NameAtDot | src/client/parser.cpp:23-177 | a name is cut before its last dot, unless that comes first or the name is two dots |
| Tokens.GetLine | src/client/parser.cpp:48-54 | a line is what stands before the next delimiter or the end |
| Tokens.ReadFields | src/client/parser.cpp:52-59 | cutting one line at its spaces finds its words |
| Tokens.ReadWords | src/client/parser.cpp:44-60 | the line-then-space cutting finds the words of a single pass over both separators |
| Tokens.JoinThenCut | src/client/parser.cpp:48-60 | words joined by spaces are found again |
| Tokens.CutJoinCut | src/client/parser.cpp:48-60 | cutting, joining with spaces and cutting again changes nothing |
| Tokens.WordsAreDetermined | src/client/parser.cpp:48-60 | a text without spaces and line ends is one word, and spaces and line ends part texts from each other |
| ClientParser.SpecialTakesNoValue | src/client/parser.cpp:100-153 | the branches of the main loop are exclusive: what is tested early is no preprocessor pair |
| ClientParser.Parser.CheckInputFileCandidate | src/client/parser.cpp:21-42 | a file with an input extension becomes the only input and sets an unset language; any other is passed on |
| ClientParser.Parser.ReadArgsFile | src/client/parser.cpp:44-62 | reading an argument file plays the script of its words on the fields |
| ClientParser.Parser.TakeOption | src/client/parser.cpp:100-158 | the else-if chain has the effect of the recognised item, consumes a value exactly for options that take one, and fails as the code does |
| ClientParser.Parser.ParseOne | src/client/parser.cpp:69-159 | one turn of the loop leaves the rest of the script to be played |
| ClientParser.Parser.ParseArgs | src/client/parser.cpp:67-160 | the loop, with its recursion through argument files, plays the script of the arguments |
| ClientParser.Parser.Construct | src/client/parser.cpp:162-182 | the constructor's outcome, with every error case |
| ClientOptions.OutputOption | src/client/parser.cpp:101-110 | -o with a path sets the output, once, and is an error without one |
| ClientOptions.JoinedOutputOption | src/client/parser.cpp:111-113 | -o with the path joined sets the output, even over another |
| ClientOptions.ModeOption | src/client/parser.cpp:114-119 | -c and -S set the mode and the decision, unless distribution was ruled out |
| ClientOptions.LanguageOption | src/client/parser.cpp:120-135 | -x is passed on and sets the language, or rules distribution out if it is none of the four known |
| ClientOptions.TargetOption | src/client/parser.cpp:136-142 | -target is passed on with its value and sets the target |
| ClientOptions.JoinedTargetOption | src/client/parser.cpp:143-146 | so does --target= with the value joined |
| ClientOptions.PairOption | src/client/parser.cpp:147-153 | a two-part preprocessor option is passed on with its value |
| ClientOptions.RefusedArgument | src/client/parser.cpp:72-92 | an argument with a space or from the tables that prevent distribution ends the parse, before anything else is asked about it |
| ClientOptions.OtherArgument | src/client/parser.cpp:21-42 | an existing file with an input extension is the only input and has its language assumed; anything else is passed on |
| ClientOptions.FileArgument | src/client/parser.cpp:44-99 | a reference has the words of the file parsed with the fields as they are, and is an error without the file |
| ClientOptions.AtTheEnd | src/client/parser.cpp:162-182 | what the constructor makes of the fields at the end |
| ArgumentFiles.ReadAppend | src/client/parser.cpp:67-160 | reading goes on after a part that was read to its end |
| ArgumentFiles.RankIsOnlyAWitness | src/client/parser.cpp:94-99 | the result does not depend on the ranks that show termination |
| ArgumentFiles.AcyclicIsRanked | src/client/parser.cpp:94-99 | if every argument file that can be entered refers only to files of lower rank, reading ends |
| ArgumentFiles.InliningExactlyWhen | src/client/parser.cpp:44-153 | the arguments with all argument files spliced in, at every depth, are read as the original ones if and only if no file ends inside a pair while arguments follow; otherwise the parse fails there and the spliced arguments are read further |
| ArgumentFiles.InliningPreservesParse | src/client/parser.cpp:44-99 | unless a file is cut short so, parsing gives the same final fields or the same error as on the spliced arguments; in particular whenever it succeeds |
| ArgumentFiles.SplicingOneFile | src/client/parser.cpp:44-99 | one reference can be replaced by the file's arguments on the spot if the file can be parsed on its own, whatever becomes of the rest |
| ArgumentFiles.FailureIsNotPreserved | src/client/parser.cpp:101-147 | the simplest inputs that are cut short: a file that is a lone option with a value, such as -o, fails, its contents in place do not |
| ParserSummary.ReadItemsOk | src/client/parser.cpp:78-158 | what the client passes on is neither refused nor, outside a pair, an option that takes a value |
| ParserSummary.SummaryOfParse | src/client/parser.cpp:21-182 | decision, language, input, output, mode, target and passed-on arguments of a successful parse, read off the items; the error for an undetermined language is unreachable |
| ParserSummary.RunSucceedsExactlyWhen | src/client/parser.cpp:25-106 | the run over the items fails exactly for a second input or a separate -o after an output is known |
| ParserSummary.ParseSucceedsExactlyWhen | src/client/parser.cpp:67-182 | the parser succeeds exactly if the arguments can be read, are unambiguous, and a job to be distributed has an input |
| ServerParser.Parser.Run | src/server/parser.cpp:14-62 | the server's loop is the recursive filter, with the same rejections |
| ServerParser.KeptIsClean | src/server/parser.cpp:17-58 | the output is a subsequence of the input without any argument from the server's tables in any position, and the compile flag is seen exactly if kept |
| ServerParser.FilterTwice | src/server/parser.cpp:14-62 | filtering an accepted output again accepts it unchanged |
| ServerParser.ScanAppend | src/server/parser.cpp:17-58 | filtering distributes over concatenation |
| ServerParser.ScanAcrossPair | src/server/parser.cpp:38-47 | a left part that ends inside a pair takes its value from the right part |
| ServerParser.FilterByTable | src/server/parser.cpp:17-60 | what one more argument does, by the tables: named in a rejection, dropped, dropped with its value, or passed on |
| ServerParser.RejectionIsFinal | src/server/parser.cpp:20-31 | a rejection for an argument that prevents distribution is final, whatever follows |
| Pipeline.Assemble | src/client/main.cpp:90-133 | the vectors for the preprocessor and for the server, built in place: the parsed arguments, -target with the build target exactly for clang without one, and the mode |
| Pipeline.ItemsAreExpandedArguments | src/client/parser.cpp:44-158 | the items are the user's arguments with argument files expanded, in order and without loss |
| Pipeline.ReadOfRaw | src/client/parser.cpp:67-160 | round trip: items written out and read again are the same |
| Pipeline.ReadItemsReadBack | src/client/parser.cpp:67-160 | whatever the client recognises in arguments with argument files, it recognises again when written out |
| Pipeline.AddedReadsAsMeant | src/client/main.cpp:99-133 | what the client adds reads back as a target, if one was to be added, and the mode |
| Pipeline.ScanSent | src/server/parser.cpp:17-58 | if no -target value is in the server's tables, the server keeps exactly what should survive |
| Pipeline.OptionsSurviveExactlyWhen | src/client/main.cpp:99-133 | the server's output is the expanded arguments in order, minus input, output, mode and preprocessor options, plus added target and mode, if and only if no -target value is in the server's tables |
| Pipeline.AcceptedAsMeantExactlyWhen | src/server/parser.cpp:14-62 | for every job the client distributes, the server accepts it to compile with exactly what should survive if and only if no -target value is in the server's tables and -c is the mode or such a value |
| Pipeline.ServerCompilesAsMeant | src/server/parser.cpp:14-62 | what the server compiles with, read the way the client reads, has the kept options in order, the user's mode, and the user's last target or for clang without one the build target |
| Pipeline.ServerAcceptsExactlyWhen | src/server/parser.cpp:14-62 | for a job the client distributes whose -target values do not begin with a dash, the server accepts iff the final mode is -c, and otherwise only takes it for a link |
| Pipeline.DashedTargetBreaksStep | src/server/parser.cpp:38-47 | a further -target at the end of a distributable command line, with a two-part preprocessor option as its value, makes the server turn the job down, whatever the mode |
| Pipeline.CompileThenTarget | src/server/parser.cpp:38-47 | for every source file and every such option: -c with the file is accepted, with that -target added it is distributed and turned down |
| Pipeline.IncludeSwallows | src/common/constants.hpp:65-68 | for example -c a.c -target -I |
| ServerStore.KeyInjective | src/client/client.cpp:224-252 | server and field can be told from a key, for arbitrary server names |
| ServerStore.NameKeys | src/client/client.cpp:96 | a key ends in _name exactly if it is a name key, whatever the server is called |
| ServerStore.RepresentsOnlyOne | src/client/client.cpp:44-56 | a store represents at most one map of records |
| ServerStore.AllOrNone | src/client/client.cpp:224-273 | a server has all six keys or none |
| ServerStore.PutRecord | src/client/client.cpp:218-252 | writing the six keys of a server is an update of its record and leaves every other server untouched |
| ServerStore.DropRecord | src/client/client.cpp:266-273 | deleting them is a removal of its record and leaves every other server untouched |
| ServerStore.UpdateKeepsOthers | src/client/client.cpp:231-252 | for slash-free names an update of the compiler list keeps all others in order, the queried one only if supported, and adds none |
| ServerStore.UpdateCompilers | src/client/client.cpp:231-251 | the loop over the stored list computes that update |
| ServerStore.CompilersByName | src/client/client.cpp:231-251 | the updated list, name by name: copied with its slash except for the queried one if unsupported; a new server has the queried one if supported |
| ServerCache.Client.constructor | src/client/client.cpp:58-66 | a client opens the store that earlier processes left and starts without servers |
| ServerCache.RecordKeys | src/client/client.cpp:47-56 | the six keys of a record and their values, spelled out |
| ServerCache.Client.UpdateServer | src/client/client.cpp:218-252 | acts as one update of the server's record, with the answer's values under the six keys |
| ServerCache.Client.RemoveServer | src/client/client.cpp:266-273 | acts as one removal; none of the six keys is left |
| ServerCache.Client.Scan | src/client/client.cpp:88-123 | the scan finds every server once and tells fresh from expired ones |
| ServerCache.Registered | src/client/client.cpp:135-147 | the duplicate test finds a name exactly if it is there |
| ServerCache.AddConfigured | src/client/client.cpp:130-154 | adds each configured server once, unless it is known, even if the configuration repeats it |
| ServerCache.Client.QueryOne | src/client/client.cpp:159-187 | a server that answers is updated and usable, any other is purged |
| ServerCache.Client.QueryAll | src/client/client.cpp:155-188 | after the loop every server of the vector has been asked |
| ServerCache.Client.Refresh | src/client/client.cpp:130-189 | records and usable servers after the queries |
| ServerCache.InsertAll | src/client/client.cpp:191-193 | the usable servers in order of load, none lost or repeated, those of equal load in the order they were found |
| ServerCache.Client.Init | src/client/client.cpp:42-216 | afterwards the configured compression type is stored and the servers in the database are exactly those the client knows, without duplicates; a record stays, unasked, exactly if the type was the same and it is at most ten seconds old, and then its last query is truly that recent; any other known or configured server is there exactly if it answered in this call, with the values of its answer |
| ServerCache.StartUpSpelledOut | src/client/client.cpp:70-189 | that what is known after a start-up follows from the store, the configuration and the replies |
| ServerCache.StartUp | src/client/client.cpp:42-216 | a new process on a left store knows exactly the servers in it after the refresh, and leaves a store that the next process can open |
| ServerCache.AllRecent | src/client/client.cpp:108-116 | a record that passes the ten-second test on its truncated time stamp is truly that recent |

## Left out

- gRPC stubs, channels, contexts and messages: a call is a step with a reply.
- LMDB transactions, cursors and the lifetime of its views, and races between client processes: the store is an atomic map.
- Decompression, temporary files, preprocessing and the compiler process: in Distribute they are a choice among the return paths.
- Exceptions that end in termination inside a handler: the process is taken to stop.
- The Query call, its load arithmetic and the compiler allow-list: an environment that replies.
- The stop request of the reaper: the server is taken to run.
- Logging, environment, configuration files, signals and the probe of the standard input.
- The local fallback in main, mapGRPCStatus, mapCompiler, the representation of Arg, and moving a Client.
- Path names that denote the same file in different ways, and file types other than regular files.
- Sending.Client.Send: assumes that every sweep advances the clock by at least one tick.
- ServerCache.Client.Init: is atomic, and a stored compiler list is read whole rather than up to a NUL character.
