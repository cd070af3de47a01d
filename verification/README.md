# Proofs about Squid's core protocols and the CArchitecture job pipeline

This project models the algorithmic core of the repository in Dafny and proves what its
code and documentation promise: the analyser's own two-queue job pipeline
(`CArchitecture/CMgrJob.cpp`), and the state machines and data structures of the Squid
sources kept under `testcases/squid`.  `dafny verify dfyconfig.toml` checks everything.

| file | models |
|---|---|
| `ChunkedNumbers.dfy` | numbers as strtoll reads them, with white space, signs and 0x |
| `ChunkedReference.dfy` | a byte-at-a-time reference decoder of the chunked coding, its laws, and which streams are tidy |
| `ChunkedSteps.dfy` | what each step of the incremental parser does, and that it refines the decoder on tidy input |
| `ChunkedParser.dfy` | the incremental parser as a class over two buffers that takes just those steps |
| `ChunkedRuns.dfy` | whole runs of parse() calls: split invariance, errors, output |
| `ChunkedCuts.dfy` | for which streams it does not matter how they are cut: exactly the tidy ones |
| `ChunkedGrammar.dfy` | what a line is: plain characters and quoted strings |
| `ChunkedRoundTrip.dfy` | the wire format of section 4.1 of RFC 7230 and the round trip |
| `ChunkedErrors.dfy` | what the parser rejects, with all before it delivered |
| `Checklist.dfy` | access-rule checking with asynchronous, re-entrant lookups |
| `PipeValue.dfy` | what the operations of a body pipe do, and what holds over every run of them |
| `BodyPipe.dfy` | the producer/consumer body pipe as an object that does just that |
| `JobQueues.dfy` | the intrusive queues as FIFO sequences |
| `JobPipeline.dfy`, `JobOrder.dfy`, `JobProgress.dfy` | the interleaved workers: once-only handling, when it is in order, and that it ends |
| `DiskdMemory.dfy` | the shared-memory bitmap and the diskd message window under re-entrant handlers |
| `AsyncCalls.dfy`, `AsyncJobs.dfy` | the asynchronous call queue; the life of jobs |
| `ConnOpener.dfy` | the connection opener: descriptor ownership and answers |
| `DelayPools.dfy` | delay-pool token buckets and the rate bound |
| `DescriptorSets.dfy`, `Coordinator.dfy`, `ConfigQuoting.dfy` | the sparse set, the strand search, config quoting |
| `Collections.dfy` | notions that several files share |

How the parts fit together:

* Objects that the source updates in place are classes here.  Their invariants hold after
  every operation, hence over every run.  Where concurrency or re-entrancy makes several
  activations overlap (pipeline, diskd window, jobs), the model is a state machine over
  atomic steps, and theorems quantify over all runs.
* `ChunkedCodingParser.Parse` does what the function `ParseCall` says; the theorems about runs
  quantify over all sequences of such calls, and `Session` shows that clients make them.
  Exceptions are `thrown` results.  Buffers are zero-terminated (`testcases/squid/MemBuf.cc:254-274`),
  so a number that is read from one ends with its content at the latest.
* ACLs are an oracle: a definite verdict each, and a script that decides at which
  evaluations an ACL asks for a lookup instead and how that lookup goes.  `IsRefused` says,
  of rules and script, when a lookup cannot be waited for; then and only then (or when the
  rules are freed) is the answer DUNNO instead of the specified one.
* The queues are first-in first-out exactly for jobs that are not queued already
  (`JobQueues.FifoIffNotQueued`); that the workers only add such jobs is
  `JobPipeline.IoJobAlone` and `JobPipeline.WorkJobAlone`: a job in a worker's hands is in no
  queue.
* Inputs of the outside world (bytes arriving, output space, lookups, connect results,
  message completions, submissions, scheduled work, time) are parameters or steps.

That jobs leave the pipeline in the order they entered is false of the code as it is
started: `CArchitecture/Architecture.cpp:164-165` creates two parse workers, and
`JobOrder.Overtaking` is an interleaving in which the second job is written first.
`JobOrder.OrderlyIffOneWorker` states exactly when the order holds.

The comments in SEND and optionQ1Parse (`testcases/squid/DiskdIOStrategy.cc:410-414`,
`458-464`) say that the window keeps the buffers from running out.  That holds only up to a
nesting depth of handlers, and since the drain loop serves all store directories
(`testcases/squid/store_dir.cc:885-912`), the handlers of the others count as well:
`DiskdMemory.BufferBoundIsExact` says up to which depth, and `DiskdMemory.OwnDepthIsNoBound` that
counting this strategy's handlers alone bounds nothing.

A consumer should hear of the end of a body once.  A job that leaves the pipe without having
taken a byte and attaches itself again hears of it again, whether it left before or after it was
told: the dialer compares jobs, not attachments (`PipeValue.HearsTwice`).
`PipeValue.OneEndIffAttachedOnce` states it exactly: no consumer hears two ends, in all runs in
which each job attaches itself at most k times, if and only if k is at most one.

A call that is the last of the queue can be scheduled once more, because it has no link, like one
that is not queued; `AsyncCalls.AsyncCallQueue.Schedule` says that the queue then loops, and
that it is first-in first-out exactly for calls that are not in it.

The chunked parser is meant to be incremental, but sizes and use-original-body values are read with
strtoll, which accepts more than digits.  White space or a sign before a size throws when nothing
follows yet and is skipped otherwise; after `0x` the size is zero when nothing follows yet; and white
space that makes up a whole use-original-body value is skipped past the line end.
`ChunkedCuts.CutsDoNotMatterIffTidy` says exactly for which streams no two ways of cutting disagree, and
`ChunkedRoundTrip.WireIsTidy` that the messages of section 4.1 of RFC 7230 are among them.

A consumer that was attached when the producer left, or a job that attaches itself later, is told of
the end, once.  A sink that starts after the producer left (`testcases/squid/BodyPipe.cc:326-334`) is not, and
never lets go: `PipeValue.EndToldIffDue` says exactly who is told, `PipeValue.LateSinkExample` is such a sink and
`PipeValue.LateSinkStays` says what becomes of it.

A registered consumer whose job is gone counts as no consumer (`testcases/squid/CbcPointer.h:30-33`), except
to clearConsumer; another one can take its place.

Where code and documentation disagree, the code is modelled: the comment at
`testcases/squid/DiskdIOStrategy.cc:534-538` says that the drain goes on until fewer than
magic2 messages are away, the loop at line 424 stops at magic2; the comment at line 87 says
that magic2 is positive, which optionQ2Parse does not check; the class comment at
`testcases/squid/ChunkedCodingParser.h:40` names ieof, the code reads use-original-body;
the documentation at `testcases/squid/Checklist.h:91-110` does not mention the DUNNO of a
refused lookup (`Checklist.NeverRefusedIffCooperative` and `Checklist.NeverRefusedIffQuiet` say when there is none,
whatever the rules).

## Model

| member | source | states |
|---|---|---|
| ChunkedCuts.CutsDoNotMatterIffTidy | testcases/squid/ChunkedCodingParser.cc:31-91 | For every stream: all runs of parse() calls over it and over its beginnings that do not wait for output space agree (an error found early is found with the same output by every longer run; runs over the same bytes have emitted the same, agree on whether they threw, and otherwise reached the same step, sizes, quoting state, use-original-body value and unparsed input), if and only if no size in it is written with white space, a sign or 0x where strtoll would still read a size, and no blank use-original-body value is followed by a number |
| ChunkedCuts.CutsMatterHere | testcases/squid/Parsing.cc:247-264 | Three short streams of the three kinds for which it does matter how they are cut |
| ChunkedRuns.SplitInvariance | testcases/squid/ChunkedCodingParser.cc:31-147 | Two runs of parse() calls over the same tidy bytes, cut at any places and drained in any pattern, that do not wait for output space have emitted the same bytes, agree on whether they threw, and otherwise reached the same state and unparsed input |
| ChunkedRuns.RunRefines | testcases/squid/ChunkedCodingParser.cc:31-62 | Over every run on a tidy stream, what was emitted plus what the reference decoder makes of the unparsed input is the decoding of everything that arrived; a run throws only on a stream the decoder rejects, having emitted all that precedes the error |
| ChunkedRuns.Session | testcases/squid/ChunkedCodingParser.cc:31-46 | Any client that feeds the parser class piece by piece and drains its output produces one of the runs that the theorems are about; on a tidy stream its output is a beginning of the decoding, and all of it, with an error in the stream, when the parser threw |
| ChunkedRuns.ErrorsAreFinal | testcases/squid/ChunkedCodingParser.cc:76-90 | If one run throws after a beginning of a tidy stream, every run over the stream that does not wait for space throws too and has emitted the same bytes |
| ChunkedRuns.OutputIsPrefix | testcases/squid/ChunkedCodingParser.cc:107-125 | At any time the output is a prefix of the decoding of the stream, whatever tidy bytes follow |
| ChunkedRuns.AmpleSpaceSettles | testcases/squid/ChunkedCodingParser.cc:53-62 | A call with more output space than there is input never stops for lack of space, so one call on the whole stream is one of the runs compared |
| ChunkedRuns.EnoughSpaceSettles | testcases/squid/ChunkedCodingParser.cc:53-62 | Neither does a call with more output space than a tidy stream can fill |
| ChunkedSteps.QuiescentFuture | testcases/squid/ChunkedCodingParser.cc:48-62 | A parser that waits for data has emitted everything its input determines, and its fields and input can be read back from the decoder state |
| ChunkedSteps.ParseKeeps | testcases/squid/ChunkedCodingParser.cc:31-46 | On tidy input a call conserves the decoding and leaves tidy input, or throws where the decoder rejects the input |
| ChunkedSteps.ParseRests | testcases/squid/ChunkedCodingParser.cc:48-62 | On any input a call stays within its space and stops only when nothing more can be made of the input, without space, or at the message end |
| ChunkedSteps.SizeKeeps | testcases/squid/ChunkedCodingParser.cc:64-91 | Reading a chunk size from tidy input conserves the decoding, although a size that is not zero stays in the input; it throws only where the decoder rejects |
| ChunkedSteps.SkipKeeps | testcases/squid/ChunkedCodingParser.cc:93-105 | Skipping an extension conserves the decoding although it discards input, because the two stored flags carry the whole quoting state |
| ChunkedSteps.BodyKeeps | testcases/squid/ChunkedCodingParser.cc:107-125 | Moving body bytes conserves the decoding: what is emitted is what the decoder emits for the bytes removed |
| ChunkedSteps.EndKeeps | testcases/squid/ChunkedCodingParser.cc:127-147 | The line after a chunk is acted upon as the decoder does, text before its end being an error |
| ChunkedSteps.TrailerKeeps | testcases/squid/ChunkedCodingParser.cc:157-178 | One trailer line at a time conserves the decoding; a blank line, and no other, ends the message |
| ChunkedSteps.LastKeeps | testcases/squid/ChunkedCodingParser.cc:258-302 | The line of the last chunk conserves the decoding, including the use-original-body value, although the number is read past the line end |
| ChunkedSteps.StepIsSound | testcases/squid/ChunkedCodingParser.cc:41-43 | On any input every step keeps sizes, step and flags consistent, stays within the space and makes progress |
| ChunkedNumbers.SizeIsStray | testcases/squid/Parsing.cc:247-264 | Where no digit stands, a size is read only as white space or a sign before a digit, and not below zero |
| ChunkedNumbers.StrayIsSize | testcases/squid/Parsing.cc:247-264 | Such a size is read as soon as its first digit is there |
| ChunkedNumbers.DigitIsItsPlace | testcases/squid/Parsing.cc:247-264 | What every digit character is worth: its place among 0 to f or 0 to F |
| ChunkedNumbers.ReadHexForm | testcases/squid/Parsing.cc:247-264 | Any white space, sign or none, 0x or 0X or none, and hex digits up to something else are read as their signed value, clamped to int64, and up to there |
| ChunkedNumbers.ReadDecForm | testcases/squid/Parsing.cc:247-264 | The same for decimal numbers |
| ChunkedNumbers.ReadNothing | testcases/squid/Parsing.cc:247-264 | Without a digit after white space and a sign nothing is read |
| ChunkedReference.ValueAfterOthers | testcases/squid/ChunkedCodingParser.cc:268-298 | The value of use-original-body is found after any other extensions, whatever blanks stand around the semicolons |
| ChunkedGrammar.OneLineIffPieces | testcases/squid/ChunkedCodingParser.cc:212-252 | The scan takes for one line exactly what consists of characters other than quotes and line feeds and of quoted strings, in which a backslash quotes the next character |
| ChunkedGrammar.ChompForm | testcases/squid/ChunkedCodingParser.cc:228-250 | All CRs right before a line feed belong to the line end |
| ChunkedErrors.NoSizeIsRejected | testcases/squid/ChunkedCodingParser.cc:76-90 | After any well-formed chunks, anything that strtoll reads no size from makes every run throw that does not wait for space; the data before were delivered |
| ChunkedErrors.JunkIsRejected | testcases/squid/ChunkedCodingParser.cc:127-138 | Any text between the data of a chunk and its line end makes every such run throw; the data were delivered |
| ChunkedReference.OriginStays | testcases/squid/ChunkedCodingParser.cc:288-292 | Unless a blank value is followed by a number, use-original-body is read alike with and without what follows its line |
| ChunkedRoundTrip.RoundTrip | testcases/squid/ChunkedCodingParser.cc:64-178 | For every list of non-empty chunks with any extensions, any last-chunk extensions whose use-original-body value is not blank (or, if blank, not followed by a number) and any trailer fields, every run over the encoding and any bytes after it delivers exactly the data, ends in psMessageEnd, leaves every later byte in the input and has read use-original-body |
| ChunkedRoundTrip.WireIsTidy | testcases/squid/ChunkedCodingParser.cc:64-178 | Every such message, with any bytes after it, is a tidy stream |
| ChunkedRoundTrip.HexRoundTrip | testcases/squid/Parsing.cc:247-264 | Reading a size written in hex, each digit in either case, gives the size |
| ChunkedRoundTrip.HexSpelling | testcases/squid/Parsing.cc:247-264 | Every run of hex digits without a leading zero is what is written for its value, in the right case |
| ChunkedRoundTrip.CanonicalChunk | testcases/squid/ChunkedCodingParser.cc:64-91 | Every non-empty piece up to the int64 bound can be sent as a well-formed chunk, its size in digits of either case |
| ChunkedRoundTrip.OriginRoundTrip | testcases/squid/ChunkedCodingParser.cc:288-292 | The number sent as use-original-body in the last chunk is read back, for all int64 values from 0, after any other extensions and with any blanks around the semicolons |
| ChunkedRoundTrip.DecodeChunk | testcases/squid/ChunkedCodingParser.cc:64-147 | A chunk on the wire contributes its data and returns to expecting a chunk size |
| ChunkedRoundTrip.DecodeEnding | testcases/squid/ChunkedCodingParser.cc:149-178 | A zero chunk with extensions and trailers ends the message and keeps what follows |
| ChunkedReference.DecodeConcat | testcases/squid/ChunkedCodingParser.cc:31-46 | The reference decoder works byte by byte: decoding a concatenation continues from the state after its first part |
| ChunkedReference.DecodeSizeAsExtension | testcases/squid/ChunkedCodingParser.cc:80-85 | A non-zero chunk size that stays in the input and is scanned again as extension text does not change the decoding |
| ChunkedReference.DecodeWholeLine | testcases/squid/ChunkedCodingParser.cc:134-144 | A line up to its first unquoted line feed is acted upon as a whole |
| ChunkedParser.FindCrlf | testcases/squid/ChunkedCodingParser.cc:196-255 | Finds the first line feed outside quotes, with the run of CRs right before it as the start of the terminator; reports none exactly when there is none, and then returns the quoting state at the end of the buffer |
| ChunkedParser.ChunkedCodingParser.constructor | testcases/squid/ChunkedCodingParser.cc:16-29 | A fresh parser expects a chunk size, with nothing pending and use-original-body unset |
| ChunkedParser.ChunkedCodingParser.ParseChunkSize | testcases/squid/ChunkedCodingParser.cc:64-91 | On any input: waits on digits alone; throws when strtoll reads nothing or a negative number; a size that is not zero stays in the input, a zero is removed |
| ChunkedParser.ChunkedCodingParser.ParseUnusedChunkExtension | testcases/squid/ChunkedCodingParser.cc:93-105 | Drops the input up to the line end that the stored quoting state determines, or all of it, storing the quoting state reached |
| ChunkedParser.ChunkedCodingParser.ParseChunkBody | testcases/squid/ChunkedCodingParser.cc:107-125 | Emits exactly the bytes it removes, as many as body, input and space allow, and never trips its two checks |
| ChunkedParser.ChunkedCodingParser.ParseChunkEnd | testcases/squid/ChunkedCodingParser.cc:127-147 | Throws exactly when text precedes the line end, else consumes the line and expects a chunk size, or waits when there is no line end |
| ChunkedParser.ChunkedCodingParser.ParseTrailerHeader | testcases/squid/ChunkedCodingParser.cc:157-178 | Consumes exactly one trailer line; a blank line, and no other, ends the message |
| ChunkedParser.ChunkedCodingParser.ParseTrailer | testcases/squid/ChunkedCodingParser.cc:149-155 | Goes through all trailer lines present as single steps would, and terminates |
| ChunkedParser.ChunkedCodingParser.ReadExtensions | testcases/squid/ChunkedCodingParser.cc:268-298 | The scanning loop finds the use-original-body value in the extension text, and reads its number from all that the buffer holds |
| ChunkedParser.ChunkedCodingParser.ParseLastChunkExtension | testcases/squid/ChunkedCodingParser.cc:258-302 | Consumes the line and sets use-original-body, or waits when there is no line end |
| ChunkedParser.ChunkedCodingParser.RunStep | testcases/squid/ChunkedCodingParser.cc:41-43 | Each dispatch leaves what the whole call does unchanged and makes progress; psMessageEnd is never executed |
| ChunkedParser.ChunkedCodingParser.Parse | testcases/squid/ChunkedCodingParser.cc:31-46 | Terminates, having emitted, thrown and left in fields and input exactly what the steps in sequence do; stops only at the message end, without space, or for more data |
| ChunkedParser.MemBuf.Consume | testcases/squid/MemBuf.cc:204-209 | Drops a prefix of the content |
| Checklist.AclChecklist.RunCheck | testcases/squid/Checklist.cc:378-385 | For every script of ACL and lookup behaviour, with the caller or the rules going away at any suspension: the check ends, not waiting, with exactly one callback if the caller lives and none otherwise; the answer is that of the simple specification unless a lookup was refused or the rules were freed, in which case it is DUNNO; and a lookup is refused exactly when IsRefused says so of rules and script |
| Checklist.DecisionIsFirstMatch | testcases/squid/Checklist.h:91-110 | The specification's answer is the keyword of the first matching rule, an exceptional ACL before that ends the check, no match reverses the last keyword, and no rules give DUNNO |
| Checklist.MatchIffAllSatisfied | testcases/squid/Acl.cc:325-356 | A rule matches exactly when each positive ACL matches and each negated one does not |
| Checklist.FirstUnsatisfied | testcases/squid/Checklist.cc:217-257 | Otherwise the first ACL that is exceptional, or not as asked for, decides |
| Checklist.DropMismatches | testcases/squid/Checklist.cc:59-107 | Resuming after rules that mismatched gives the same answer although only the last keyword seen is remembered |
| Checklist.CooperativeNeverRefused | testcases/squid/Checklist.cc:232-253 | If ACLs are definite right after a lookup that did not wait, no lookup is ever refused |
| Checklist.QuietNeverRefused | testcases/squid/Checklist.cc:305-310 | In a fast check in which no ACL needs a lookup, none is refused |
| Checklist.NeverRefusedIffCooperative | testcases/squid/Checklist.cc:232-253 | For every script of ACL behaviour: no rules at all are refused a lookup, and all get the specified answer, if and only if ACLs are definite right after each lookup that did not wait |
| Checklist.NeverRefusedIffQuiet | testcases/squid/Checklist.cc:305-310 | For every script: no fast check is refused a lookup, and all give the specified answer, if and only if no ACL needs one |
| Checklist.RefusedExample | testcases/squid/Checklist.cc:245-252 | An ACL that asks for a lookup again right after one completed at once is refused, although the specification's answer is that of a matching allow rule |
| Checklist.RefusedCheck | testcases/squid/Checklist.cc:245-252 | Carried out, that check calls back with DUNNO |
| Checklist.AclChecklist.constructor | testcases/squid/Checklist.cc:316-326 | A new checklist is idle at its first rule |
| Checklist.AclChecklist.SetAsyncInProgress | testcases/squid/Checklist.cc:125-132 | Sets the flag; never on a finished check and never twice |
| Checklist.AclChecklist.MarkFinished | testcases/squid/Checklist.cc:140-147 | Sets the answer once, never while waiting |
| Checklist.AclChecklist.ChangeState | testcases/squid/Checklist.cc:355-365 | Changes only from null to active and back |
| Checklist.AclChecklist.NodeMatches | testcases/squid/Acl.cc:325-356 | A definite ACL matches as it is when positive and the other way round when negated; exceptional and pending ones never match |
| Checklist.AclChecklist.MatchNode | testcases/squid/Checklist.cc:264-314 | The four supported outcomes, each with its meaning; the four others are unreachable; a lookup is prohibited exactly in fast mode when one is wanted |
| Checklist.AclChecklist.CheckForAsync | testcases/squid/Checklist.cc:169-173 | Returns either waiting or with the null state restored, although a lookup that completes at once re-enters the checklist |
| Checklist.AclChecklist.LookupDone | testcases/squid/DestinationIp.cc:99-109 | While checking, completion changes nothing but the lookup flags; otherwise it resumes the check at the current rule |
| Checklist.AclChecklist.TryNode | testcases/squid/Checklist.cc:217-257 | One round of the node loop, including the second match that cannot wait again |
| Checklist.AclChecklist.MatchNodes | testcases/squid/Checklist.cc:210-262 | True exactly on a match of all nodes; a mismatch, an exception and a wait are told apart |
| Checklist.AclChecklist.CheckAccessList | testcases/squid/Checklist.cc:157-167 | The current rule's verdict decides the answer, or the rule is passed over, or the check waits |
| Checklist.AclChecklist.CalcImplicitAnswer | testcases/squid/Checklist.cc:442-458 | Gives DENIED after a last allow, ALLOWED after a last deny, else DUNNO |
| Checklist.AclChecklist.CheckCallback | testcases/squid/Checklist.cc:175-191 | At most one callback, to a live caller only; the checklist is gone afterwards and is not waiting |
| Checklist.AclChecklist.CheckRules | testcases/squid/Checklist.cc:59-110 | From any resumption point: the answer due is delivered, or the check waits at a rule before which all rules mismatched |
| Checklist.AclChecklist.MatchNonBlocking | testcases/squid/Checklist.cc:39-111 | Re-entry while checking changes nothing; otherwise as CheckRules, with DUNNO for an empty list and silence for a dead caller |
| Checklist.AclChecklist.NonBlockingCheck | testcases/squid/Checklist.cc:378-385 | Starts a check: the answer is delivered at once or the check waits |
| Checklist.AclChecklist.FastCheck | testcases/squid/Checklist.cc:406-440 | The same answer as the specification, or DUNNO exactly when a lookup is wanted |
| Checklist.AclChecklist.FastCheckList | testcases/squid/Checklist.cc:387-401 | ALLOWED when all nodes match, DENIED on a mismatch, the exceptional answer, or DUNNO exactly when a lookup is wanted |
| BodyPipe.Session | testcases/squid/BodyPipe.cc:126-435 | For every sequence of operations that the source allows, by producers, consumers, a borrower of the buffer (with other operations in between) and the call queue: the object ends up as the run of values says; what was handed out followed by what is buffered or lent is what was put, in order; the counters agree; a known size is not exceeded; nothing follows an attachment's end, aborts are told once, all ends tell the truth, and exactly those who should be told of the end are |
| PipeValue.EndIsLastHeard | testcases/squid/BodyPipe.cc:66-96 | What reaches a consumer after it was told of the end is for a job, never a sink, that attached itself at least twice |
| PipeValue.HearsTwice | testcases/squid/BodyPipe.cc:82-96 | A job that attaches itself again is told of the end twice, whether it left before or after the first time |
| PipeValue.OneEndIffAttachedOnce | testcases/squid/BodyPipe.cc:66-96 | For every k: in all runs in which each job attaches itself at most k times no consumer is told twice of the end, if and only if k is at most 1 |
| PipeValue.EndToldIffDue | testcases/squid/BodyPipe.cc:191-249 | In every run: nobody is told of the end while the producer is there; afterwards an end is scheduled for an attachment if and only if it was live when production stopped or is that of a job that was live when it attached itself later, and never twice |
| PipeValue.LastByteEndsProduction | testcases/squid/BodyPipe.cc:387-403 | In every run: a put, or the return of a grown buffer, ends production exactly when it completes a body of known size; a live consumer is then told ProductionEnded last; a sink is attached and data are told as the source does |
| PipeValue.AnnouncedMeans | testcases/squid/BodyPipe.cc:387-403 | Bytes appended attach a sink exactly when auto-consumption is on and no live consumer is attached, are told to whoever consumes, and end production exactly at a known size |
| PipeValue.LateSinkExample | testcases/squid/BodyPipe.cc:316-334 | A run that leaves a sink attached which started after the producer left |
| PipeValue.LateSinkStays | testcases/squid/BodyPipe.cc:326-334 | However the run goes on, as long as nobody detaches or ends it, such a sink stays attached and no end is ever scheduled for it |
| PipeValue.ApplyOnTime | testcases/squid/BodyPipe.cc:126-435 | Every operation keeps: ends are scheduled for exactly the attachments that should be told |
| PipeValue.ApplyKeeps | testcases/squid/BodyPipe.cc:126-435 | Every operation keeps: bytes taken followed by bytes buffered or lent are the bytes put; sizes and capacity are respected; an attachment hears nothing after its end; one abort; all ends agree with size and bytes put; sinks are new consumers |
| PipeValue.DataToldKeeps | testcases/squid/BodyPipe.cc:405-415 | A data notification goes to the current attachment only while that was not told of the end |
| PipeValue.EndToldKeeps | testcases/squid/BodyPipe.cc:417-435 | An end notification is the only one of its attachment, and is ProductionEnded exactly when size and bytes put agree |
| PipeValue.StoppedKeeps | testcases/squid/BodyPipe.cc:191-208 | Ending production, which may settle the size, keeps everything told so far true |
| PipeValue.AnnouncedKeeps | testcases/squid/BodyPipe.cc:387-403 | Announcing appended bytes, to a new sink if one is due because no live consumer is attached, and ending production at the end, keeps everything told |
| PipeValue.ReturnedKeeps | testcases/squid/BodyPipe.cc:344-354 | Returning a shrunk or grown buffer restores conservation |
| PipeValue.AbortedKeeps | testcases/squid/BodyPipe.cc:264-290 | Aborting consumption, unless a live consumer is attached, is told at most once |
| BodyPipe.Pipe.DialNext | testcases/squid/BodyPipe.cc:66-96 | Notifications are made in order; each reaches its job exactly when that is not busy, still exists and is still the producer or the consumer of the pipe |
| BodyPipe.SinkHears | testcases/squid/BodyPipe.cc:17-26 | A sink drops exactly what is buffered on data, and lets go on an end |
| BodyPipe.DialOne | testcases/squid/BodyPipe.cc:66-96 | A sink that is reached by data drops exactly what is buffered, and lets go at the end; nothing else is touched |
| BodyPipe.Pipe.JobEnds | testcases/squid/CbcPointer.h:30-33 | A job ends, perhaps that of the registered consumer: nothing else changes, and from then on it counts as no consumer |
| BodyPipe.Perform | testcases/squid/BodyPipe.cc:126-435 | Each allowed operation does to the object what the run of values says, and accounts for every byte it puts or hands out |
| BodyPipe.Pipe.constructor | testcases/squid/BodyPipe.cc:126-135 | An empty pipe with a producer of unknown body size |
| BodyPipe.Pipe.SetBodySize | testcases/squid/BodyPipe.cc:145-157 | Sets the size while no live consumer is attached; keeps all invariants |
| BodyPipe.Pipe.ExpectProductionEndAfter | testcases/squid/BodyPipe.cc:182-189 | Sets an unknown size, or throws exactly when the known size differs |
| BodyPipe.Pipe.ClearProducer | testcases/squid/BodyPipe.cc:191-208 | Once only: an end of unknown size fixes the size, and a live consumer is told ProductionEnded exactly when size and bytes put agree, else ProducerAborted |
| BodyPipe.Pipe.PutMoreData | testcases/squid/BodyPipe.cc:210-223 | Puts the longest prefix that body size and buffer space allow; the bytes put, the buffer and the notifications (a sink's start, data, then the end) are stated exactly; production ends exactly when the body size is reached, and a live consumer is told so last |
| BodyPipe.Pipe.PostAppend | testcases/squid/BodyPipe.cc:387-403 | Counts the bytes; attaches a sink when auto-consumption is on and no live consumer is attached, tells the consumer of data, and ends production exactly when the body is complete |
| BodyPipe.Pipe.PostConsume | testcases/squid/BodyPipe.cc:372-385 | Counters after consumption; more space is announced exactly while the size is unknown or above the bytes put |
| BodyPipe.Pipe.Consume | testcases/squid/BodyPipe.cc:307-312 | Takes the front of the buffer; the bytes taken so far followed by the buffer are the bytes put; what is scheduled is stated exactly |
| BodyPipe.Pipe.GetMoreData | testcases/squid/BodyPipe.cc:292-305 | Hands over the longest buffered prefix that fits, in order |
| BodyPipe.Pipe.SetConsumerIfNotLate | testcases/squid/BodyPipe.cc:225-249 | Attaches, also in place of a consumer that is gone, exactly when nothing was consumed and consumption was not aborted; throws exactly in the latter case; schedules data then end |
| BodyPipe.Pipe.ClearConsumer | testcases/squid/BodyPipe.cc:251-262 | Aborts consumption exactly when something was consumed and more is expected; its internal check cannot fail |
| BodyPipe.Pipe.ExpectNoConsumption | testcases/squid/BodyPipe.cc:264-290 | The producer is told of the abort at most once per pipe; throws exactly when a live consumer is attached |
| BodyPipe.Pipe.EnableAutoConsumption | testcases/squid/BodyPipe.cc:316-323 | A sink is attached exactly when no live consumer is and data is waiting |
| BodyPipe.Pipe.StartAutoConsumption | testcases/squid/BodyPipe.cc:326-334 | A sink is a new attachment and is told of data |
| BodyPipe.Pipe.ScheduleBodyDataNotification | testcases/squid/BodyPipe.cc:405-415 | Tells a live consumer of data and nobody else |
| BodyPipe.Pipe.ScheduleBodyEndNotification | testcases/squid/BodyPipe.cc:417-435 | Tells a live consumer how production ended |
| BodyPipe.Pipe.CheckOut | testcases/squid/BodyPipe.cc:336-342 | Lends the buffer, remembering its size |
| BodyPipe.GiveBack | testcases/squid/BodyPipe.cc:344-354 | What the borrower removed from the front was handed out, what it added at the end was put, and nothing is lost |
| BodyPipe.Pipe.CheckIn | testcases/squid/BodyPipe.cc:344-354 | A shrunk buffer counts as consumed from the front, a grown one as put at the end; conservation is restored; what is told, and whether production ends, is stated exactly |
| PipeValue.PushNote | testcases/squid/BodyPipe.cc:405-435 | Scheduling one more notification keeps: nothing for an attachment after its end, one abort at most, and all end notifications telling the same |
| JobPipeline.PipelineIsSafe | CArchitecture/CMgrJob.cpp:91-152 | Over every interleaving of submitters, one I/O worker and any number of parse workers: each job is read, parsed, written and deleted at most once and only in that order, none is dropped by a stage nobody handles, and a deleted job is in no queue and in no hands |
| JobPipeline.DrainedMeansDone | CArchitecture/CMgrJob.cpp:91-152 | When queues and hands are empty, everything submitted was deleted, hence written |
| JobPipeline.StepKeeps | CArchitecture/CMgrJob.cpp:91-152 | Every step keeps every submitted job in exactly one place, in the stage of that place and in the logs it has earned |
| JobPipeline.WorkJobAlone | CArchitecture/CMgrJob.cpp:95-103 | A parse worker's job is in no queue, not written, and neither the I/O worker's nor another parse worker's |
| JobPipeline.IoJobAlone | CArchitecture/CMgrJob.cpp:121-138 | The I/O worker's job is in no queue and no parse worker's |
| JobPipeline.DeletedIsGone | CArchitecture/CMgrJob.cpp:131-135 | A deleted job is in no queue and in nobody's hands |
| JobPipeline.LogsNest | CArchitecture/CMgrJob.cpp:124-138 | Job by job: deleted implies written, written implies parsed, parsed implies read, each once |
| JobOrder.OrderlyIffOneWorker | CArchitecture/CMgrJob.cpp:91-116 | Jobs are parsed, written and deleted in submission order on every interleaving exactly when at most one worker parses; the application starts two |
| JobOrder.OneWorkerIsOrderly | CArchitecture/CMgrJob.cpp:91-152 | With at most one parse worker, deleted is a prefix of written, written of parsed, parsed of read, read of submitted, on every interleaving |
| JobOrder.Overtaking | CArchitecture/CMgrJob.cpp:95-103 | With two or more parse workers there is an interleaving in which the second of two jobs is written first |
| JobOrder.ReadsFollowSubmissions | CArchitecture/CMgrJob.cpp:118-130 | With any number of parse workers, jobs are read in submission order |
| JobOrder.LineKeeps | CArchitecture/CMgrJob.cpp:91-152 | With one parse worker every step keeps written, modelled, held, queued and unread jobs lined up as the submissions |
| JobProgress.CompletesIffSomebodyParses | CArchitecture/CMgrJob.cpp:91-152 | On every interleaving that comes to rest every submitted job was read, parsed, written and deleted once, exactly when there is a parse worker |
| JobProgress.RunsAreBounded | CArchitecture/CMgrJob.cpp:91-152 | Not counting looks into an empty queue, a run has at most 13 steps per job plus one for each worker, so every interleaving comes to rest when submissions stop |
| JobProgress.RestMeansDone | CArchitecture/CMgrJob.cpp:91-152 | A run that has come to rest took exactly 13 steps per job and finished all of them |
| JobProgress.RunIsCounted | CArchitecture/CMgrJob.cpp:91-152 | The number of steps of every run can be read off its logs and the workers' positions |
| JobProgress.NobodyParses | CArchitecture/CMgrJob.cpp:121-130 | Without a parse worker a job stays in the main queue for ever |
| JobQueues.FifoIffNotQueued | CArchitecture/CMgrJob.cpp:24-31 | Adding appends exactly when the job is not in that queue |
| JobQueues.MgrJob.constructor | CArchitecture/CMgrJob.cpp:5-14 | Both queues start empty |
| JobQueues.MgrJob.AddJob | CArchitecture/CMgrJob.cpp:16-34 | Refuses null; a job that is not queued becomes the last of the main queue, whatever stale link it brings; one that is queued cuts the queue off behind it |
| JobQueues.MgrJob.AddIOJob | CArchitecture/CMgrJob.cpp:36-54 | The same for the I/O queue |
| JobQueues.MgrJob.GetJob | CArchitecture/CMgrJob.cpp:56-71 | Takes the first job, or null exactly when the queue is empty; the links left behind are never followed |
| JobQueues.MgrJob.GetIOJob | CArchitecture/CMgrJob.cpp:73-89 | The same for the I/O queue |
| DiskdMemory.BufferAvailability | testcases/squid/DiskdIOStrategy.cc:231-260 | In every run, with handlers of this and of other store directories nested in drain loops, whenever file code asks for a buffer: one is free exactly when the messages away and the handlers under way do not hold them all, and so at nesting depth d of all handlers whenever the start-up magic2 + d < nbufs |
| DiskdMemory.BufferBoundIsExact | testcases/squid/DiskdIOStrategy.cc:231-288 | For every magic2 and depth d: code in handlers nested at most d deep, whoever's they are, finds a free buffer in every run if and only if magic2 + d < nbufs |
| DiskdMemory.OwnDepthIsNoBound | testcases/squid/DiskdIOStrategy.cc:415-430 | For every magic2, handlers of other store directories, called by this strategy's drain loops, can use up all buffers while none of its own handlers runs |
| DiskdMemory.NestOnce | testcases/squid/DiskdIOStrategy.cc:404-430 | From a full window, one more message makes SEND drain, and the handler it calls, this strategy's or another's, runs one level deeper; in the latter case the window stays exceeded |
| DiskdMemory.NestDeep | testcases/squid/DiskdIOStrategy.cc:404-507 | Every depth up to nbufs - magic2 is reached with exactly magic2 + depth buffers in use, with own handlers or with foreign ones alone |
| DiskdMemory.StepKeeps | testcases/squid/DiskdIOStrategy.cc:375-583 | Every step keeps: each buffer in use has exactly one owner (a message away, a handler, or the request being prepared), magic2 never exceeds its start-up value, and the messages away exceed that by at most one in a drain loop and one for each foreign handler that a drain loop has called |
| DiskdMemory.WindowIsLowest | testcases/squid/DiskdIOStrategy.cc:484-507 | In every run magic2 is the lowest of the start-up value and the Q2 values configured since |
| DiskdMemory.SendRespectsWindow | testcases/squid/DiskdIOStrategy.cc:422-432 | In every run, at most magic2 messages are away when SEND returns, whatever was nested in its drain loop |
| DiskdMemory.SharedMemory.constructor | testcases/squid/DiskdIOStrategy.cc:262-288 | All nbufs buffers start free |
| DiskdMemory.SharedMemory.Get | testcases/squid/DiskdIOStrategy.cc:231-260 | Sets the first clear bit and returns its offset; the search never runs off the end while a buffer is free |
| DiskdMemory.SharedMemory.Put | testcases/squid/DiskdIOStrategy.cc:218-229 | Clears exactly the bit of the given offset |
| AsyncCalls.AsyncCallQueue.Fire | testcases/squid/AsyncCallQueue.cc:31-40 | Fires until empty; every call queued before or scheduled by a call being made is made once for each time, in the order of scheduling; a call may be scheduled again, by itself too, once it is off the queue |
| AsyncCalls.AsyncCallQueue.FireNext | testcases/squid/AsyncCallQueue.cc:42-54 | Makes the first call; what it schedules, itself perhaps, joins the end |
| AsyncCalls.AsyncCallQueue.Schedule | testcases/squid/AsyncCallQueue.cc:18-29 | For every call that passes the assertions: it is appended exactly when it is not queued; the last call of the queue, scheduled again, makes the queue loop |
| AsyncCalls.AsyncCallQueue.DequeueLooped | testcases/squid/AsyncCallQueue.cc:42-49 | A looped queue gives its calls in order, but the last one stays at the head, without a tail |
| AsyncCalls.AsyncCallQueue.Dequeue | testcases/squid/AsyncCallQueue.cc:45-49 | Unlinks the first call completely |
| AsyncJobs.JobsLiveProperly | testcases/squid/AsyncJob.cc:43-148 | In every run, nested firing included: calls made are the calls scheduled, in order, once each; no job's methods overlap; each job gets at most one swan song, then one deletion; gone jobs are exactly the deleted ones; every call that was not fired is cancelled |
| AsyncJobs.EndsIffDone | testcases/squid/AsyncJob.cc:63-142 | In every run, when a method of a job ends: the job sings its swan song, to be deleted next, if and only if doneAll() is true, the method threw, or the job was told to stop at any time before; otherwise it lives on and can be called again |
| AsyncJobs.StoppedIffTold | testcases/squid/AsyncJob.cc:63-82 | In every run a job has a stop reason exactly when mustStop, deleteThis or an exception gave it one |
| AsyncJobs.CanceledIsNotFired | testcases/squid/AsyncCall.cc:43-58 | In every run a call that was cancelled before it was made is not fired |
| AsyncJobs.NothingAfterDeletion | testcases/squid/AsyncJobCalls.h:149-157 | In an unbroken job life only skipped calls follow the deletion |
| AsyncJobs.StepKeeps | testcases/squid/AsyncJobCalls.h:149-174 | Every step keeps the agreement between a job's fields, the running activations and its observable life |
| AsyncJobs.FireKeeps | testcases/squid/AsyncCall.cc:26-58 | Making a call fires it exactly when it is not cancelled, its job exists and is not in a call; else it is cancelled and skipped |
| AsyncJobs.DeleteThisKeeps | testcases/squid/AsyncJob.cc:43-61 | deleteThis outside a call ends the job through a fake call; inside one it waits for the call to end |
| ConnOpener.Opener.Start | testcases/squid/ConnOpener.cc:222-234 | With the books balanced: a failed open is answered with an error; otherwise exactly one descriptor was opened, and a connection is answered OK, a failure is answered or slept over as the limit says, and an attempt in progress waits for the descriptor with time limit and close handler set |
| ConnOpener.Opener.Restart | testcases/squid/ConnOpener.cc:236-245 | The same after a sleep |
| ConnOpener.Opener.RetryConnect | testcases/squid/ConnOpener.cc:431-444 | The same on the open descriptor: each result leaves counter, descriptor, answer and state as stated; a failure below the limit closes and sleeps, one at the limit answers COMM_ERR_CONNECT |
| ConnOpener.Opener.Timeout | testcases/squid/ConnOpener.cc:416-426 | Ends the job; an uncancelled caller hears COMM_TIMEOUT once, and the descriptor is closed |
| ConnOpener.Opener.EarlyAbort | testcases/squid/ConnOpener.cc:404-414 | Ends the job; an uncancelled caller hears COMM_ERR_CLOSING once |
| ConnOpener.Opener.Connect | testcases/squid/ConnOpener.cc:312-351 | Success hands over; failure number k retries exactly while k is below the limit, closing the descriptor first, else answers |
| ConnOpener.Opener.CreateFd | testcases/squid/ConnOpener.cc:247-282 | Opens exactly when the callback is live and a descriptor can be had, and then sets time limit and close handler; false implies that the job is done |
| ConnOpener.Opener.SendAnswer | testcases/squid/ConnOpener.cc:99-140 | Schedules an uncancelled callback once; the job stops in any case |
| ConnOpener.Opener.CloseFd | testcases/squid/ConnOpener.cc:190-207 | Closes the descriptor at most once and unregisters its handlers |
| ConnOpener.Opener.KeepFd | testcases/squid/ConnOpener.cc:209-220 | Moves the descriptor to conn_ |
| ConnOpener.Opener.BecomeConnected | testcases/squid/ConnOpener.cc:284-310 | Hands the descriptor over and answers OK unless cancelled |
| ConnOpener.Opener.Sleep | testcases/squid/ConnOpener.cc:353-363 | Closes before sleeping |
| ConnOpener.Opener.SwanSong | testcases/squid/ConnOpener.cc:62-79 | Answers a waiting caller, closes what is open: every descriptor ever opened was closed once or handed over once |
| ConnOpener.Opener.CallEnd | testcases/squid/ConnOpener.cc:44-60 | The job ends exactly when stopped, answered or cancelled; the check in doneAll cannot fail; at the end an uncancelled callback was scheduled exactly once |
| ConnOpener.Life | testcases/squid/ConnOpener.cc:44-363 | Under every sequence of connect results, sleeps, timeouts, early closes, aborts and cancellations: the job has ended, or has its books balanced and sleeps, or waits for a descriptor with a time limit, or was cancelled; at the end every descriptor opened was closed once or handed over once, an uncancelled callback was scheduled exactly once, and failed attempts never exceed max(1, connect_retries) |
| ConnOpener.Opener.NoteAbort | testcases/squid/ConnOpener.h:24-24 | Inside a call the job ends with an error answer; outside it only stalls |
| ConnOpener.Opener.CancelCallback | testcases/squid/AsyncCall.cc:43-52 | Cancellation at any time keeps the books |
| DelayPools.RateBound | testcases/squid/DelayBucket.cc:51-70 | In any window of reads within their allowance and of ticks, the bytes read through a bucket, by all clients sharing it, also when an identifier names it several times, are at most max_bytes + restore_bps * elapsed |
| DelayPools.LeastMeaning | testcases/squid/DelayVector.cc:155-168 | Least is the smallest of the bound and the levels behind an identifier of any nesting, whatever the order of its members |
| DelayPools.LeastIgnoresOrder | testcases/squid/DelayVector.cc:155-168 | Identifiers that draw on the same buckets, in whatever order and nesting, are granted the same |
| DelayPools.BytesWanted | testcases/squid/DelayVector.cc:155-168 | max(minimum, min(maximum, smallest level)) for every tree of vectors over buckets |
| DelayPools.BytesIn | testcases/squid/DelayVector.cc:170-181 | Charges each bucket once per occurrence and no other |
| DelayPools.UsesCounts | testcases/squid/DelayVector.cc:170-181 | How often a bucket is charged is how often it occurs in the flattened identifier |
| DelayPools.Update | testcases/squid/DelayBucket.cc:51-57 | Every bucket grows by restore_bps * incr as long as that stays within max_bytes, and is full otherwise; -1 means never |
| DelayPools.Refills | testcases/squid/DelayBucket.cc:51-57 | A bucket that is left alone grows by restore_bps each second until it is full, and then stays full |
| DelayPools.TicksAdd | testcases/squid/DelayBucket.cc:51-57 | A level is restored alike however the time is divided into ticks |
| DelayPools.StepBound | testcases/squid/DelayBucket.cc:51-70 | A read takes no more than the level, a tick adds no more than its share, and levels stay within the size |
| DescriptorSets.DescriptorSet.constructor | testcases/squid/DescriptorSet.cc:9-21 | An empty set |
| DescriptorSets.DescriptorSet.Has | testcases/squid/DescriptorSet.h:21-25 | Membership |
| DescriptorSets.DescriptorSet.Add | testcases/squid/DescriptorSet.cc:29-44 | Set insertion; true exactly when new; the capacity assertion cannot fail |
| DescriptorSets.DescriptorSet.Del | testcases/squid/DescriptorSet.cc:46-72 | Set removal, also of the last entry; true exactly when present |
| DescriptorSets.DescriptorSet.Pop | testcases/squid/DescriptorSet.cc:74-88 | Removes and returns the last of the listed members |
| DescriptorSets.DescriptorSet.LivePrefix | testcases/squid/DescriptorSet.h:33-36 | Iteration covers each member exactly once |
| DescriptorSets.RoomForOneMore | testcases/squid/DescriptorSet.cc:38-38 | Distinct descriptors below the capacity that leave one out are fewer than the capacity |
| Coordinator.Registry.FindStrand | testcases/squid/Coordinator.cc:40-48 | The position of the kid, or none exactly when it is unknown |
| Coordinator.Registry.EnterStrand | testcases/squid/Coordinator.cc:54-61 | A known kid's entry is replaced in place, keeping an old tag over none; a new one is added; kid ids stay unique |
| Coordinator.Registry.NotifySearchers | testcases/squid/Coordinator.cc:63-72 | Erasing while iterating answers exactly the waiters of the tag, in order, and keeps the others in order |
| Coordinator.Registry.RegisterStrand | testcases/squid/Coordinator.cc:50-73 | Keeps: unique kids, nobody waits for a registered tag, every answer carries the tag asked for, and per tag requests are answered once each in order of arrival |
| Coordinator.Registry.HandleSearchRequest | testcases/squid/Coordinator.cc:194-213 | Answers at once with the first registered strand of the tag, or waits; keeps the same |
| Coordinator.SettleTag | testcases/squid/Coordinator.cc:63-72 | Answering all waiters of one tag keeps the order of arrival for every tag |
| Coordinator.AnswerAtOnce | testcases/squid/Coordinator.cc:205-208 | An immediate answer overtakes nobody of the same tag, because nobody waits for a registered one |
| ConfigQuoting.QuoteRoundTrip | testcases/squid/ConfigParser.cc:127-186 | Parsing the quoted form of any non-empty NUL-free string stores exactly that string, and marks it quoted exactly when it holds a character that is not alphanumeric |
| ConfigQuoting.QuotedIsInjective | testcases/squid/ConfigParser.cc:164-186 | Different values are never quoted alike |
| ConfigQuoting.UnescapeEscape | testcases/squid/ConfigParser.cc:144-152 | Removing escapes undoes adding them, whatever follows the closing quote |
| ConfigQuoting.UnescapeWritten | testcases/squid/ConfigParser.cc:144-152 | Whatever characters have a backslash before them besides quotes and backslashes, the text without these backslashes is stored |
| ConfigQuoting.TextIsWritten | testcases/squid/ConfigParser.cc:144-161 | Text is stored from nothing else: it was written so, up to a closing quote |
| ConfigQuoting.EscapeIsWritten | testcases/squid/ConfigParser.cc:176-183 | QuoteString puts a backslash before quotes and backslashes and before nothing else |
| ConfigQuoting.ParseWord | testcases/squid/ConfigParser.cc:135-141 | An unquoted value is the first run of characters that are no space, tab, line feed or CR |
| ConfigQuoting.CharacterClasses | testcases/squid/ConfigParser.cc:135-172 | The characters that need no quotes, and those that end an unquoted value |
| ConfigQuoting.QuoteString | testcases/squid/ConfigParser.cc:164-186 | The two loops compute the quoted form |
| ConfigQuoting.ParseQuotedString | testcases/squid/ConfigParser.cc:127-162 | For every line: stores the first word, the unescaped text, or gives up, as specified on the string, and touches nothing beyond it |
| ConfigQuoting.UnquoteInPlace | testcases/squid/ConfigParser.cc:144-161 | For every text: the in-place loop stores the unescaped text exactly when a closing quote exists, and never leaves the string; it steps over the moved terminator exactly when a backslash has only that to escape |
| ConfigQuoting.DanglingGivesUp | testcases/squid/ConfigParser.cc:144-158 | Such a line makes the parser give up for lack of a closing quote |
| ConfigQuoting.DropChar | testcases/squid/ConfigParser.cc:149-149 | Moves the rest of the string, terminator included, one place to the left |

## Left out

- ChunkedNumbers.StrayIsSize: white space and digits are those of the C locale.
- ChunkedParser.MemBuf.Consume: buffers are byte sequences with a capacity; growth and memory layout are not modelled.
- The collected trailer text (TRAILERS_ARE_SUPPORTED) is not modelled; trailer lines are skipped.
- Checklist.AclChecklist.NodeMatches: individual ACL types, their lookups and checklistMatches' request/reply warnings are the oracle; AclMatchedName is not modelled.
- BodyPipe.Pipe.PutMoreData: producers put, and set the body size, only while registered; what a borrower appends stays within the unproduced size and is appended while the producer is registered; a registered producer is valid.
- BodyPipe.Pipe.DialNext: whether a job is in a call already is a parameter; the queue that makes the calls is that of AsyncCalls.
- BodyPipe.Pipe.CheckIn: undoCheckOut and the check-out destructor, which add nothing, are not modelled.
- JobPipeline.PipelineIsSafe: one I/O worker, as the source starts it; doReading, doParsing and doWriting are single observable events; loopWorking and the locks themselves are not modelled.
- DiskdMemory.BufferAvailability: message contents, the files' own in-progress counters, shedLoad and statistics are not modelled, and SEND's waiting for the daemon is a step that may never come; nbufs is magic2 * 13 / 10 rounded down, as the floating-point product comes out.
- AsyncJobs.JobsLiveProperly: jobs are identities with two flags; what their methods compute is arbitrary, and an exception thrown outside a job method is not modelled.
- AsyncCalls.AsyncCallQueue.Schedule: what scheduling further calls on a looped queue does (a failed assertion) is not modelled.
- ConnOpener.Opener.Start: host names, addresses, peers and the ipcache marks are not modelled; calls_.sleep_ starts false, as zero-filled allocation makes it; descriptors are numbered by the order of opening, so that a reused number counts as a new descriptor.
- ConnOpener.Opener.EarlyAbort: the second close of a descriptor that Comm is already closing counts as this job's one close.
- DelayPools.RateBound: levels and rates are unbounded integers, 32-bit overflow is not modelled; reads use a minimum of 0; the initial level (a percentage of the size) is any level within the size; kicking deferred reads is left out.
- ConfigQuoting.ParseQuotedString: the strtok position afterwards is not modelled, and characters are those of the C locale.
- Coordinator: acknowledgements, shared listening sockets, cache-manager and SNMP requests, signals.
- Squid's ESI and header parsing, address conversions, splay and radix trees, SSL tables, logging and registration code; the analyser's reading, hypergraph and partitioning code: table-like, platform-bound, or relying on libraries that are not part of this model.
- Cache digests, the accept limiter, the event loop, CPU affinity maps and entity tags would only add easy members.
