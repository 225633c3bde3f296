# Verified model of the mail log and access log ingestors

This project models the Go backend of a mail log dashboard and proves what its ingestion
relies on. The backend tails a growing, rotating log file, parses lines on several workers,
restores their order, commits each line together with a byte-offset checkpoint, stitches
lines with one queue ID into mail transactions, infers the year of legacy timestamps, and
flags addresses that scan or fail to authenticate.

The source's imperative parts are Dafny classes and loops proved against specification
functions; the concurrency is a labelled state machine over the same functions.

| module | models |
|---|---|
| `MailLog`, `TextList` | entries, transactions, the terminal-status test; splitting and joining text |
| `Framing`, `LogFollower` | complete lines of a file; the follower loop with partial lines, rotation and truncation |
| `Stitcher`, `StitcherRuns` | the in-memory stitcher; conservation, per-queue meaning, non-interference |
| `MailTable`, `Agreement` | the SQL tables and transactions; agreement of SQL merge and stitcher |
| `Pipeline`, `Placement`, `ExactlyOnce` | files, follower, workers, channels, coordinator, crashes; the invariant |
| `StepFrames` | what each step of the pipeline leaves alone |
| `IngestTheorems`, `OrderTheorems`, `Progress`, `SessionAgreement`, `TableMeaning` | what holds of every run |
| `Coordinator` | the coordinator loop as code, and its place in the machine |
| `EvictionTiming` | tick interval and eviction bounds |
| `LegacyTimestamp` | Gregorian dates and year inference (section 4.1.2 of RFC 3164) |
| `Detection`, `Forwarding` | the 404 and authentication detectors; the attributed client address |

Modelling decisions. Time is an integer and every clock reading is an input of the step that
takes it; the database clock and the process clock are separate inputs. A database
transaction is one atomic step, and every error return, cancellation or kill is a crash that
may come between any two steps. Parsing is a given function of the text and the clock that
yields an entry whose raw text is non-empty and free of newlines. Channels are queues of
capacity 1024. The environment may append to any file at any time and replace the file at the
path; the pipeline theorems assume that files only grow and that an inode which has left the
path does not come back to it. The history fields of the machine's states record what was
read and what the database executed; no step reads them.

Where the documentation and the code differ, the model follows the code:

- The documentation says an address is flagged after 10 consecutive 404 responses within two
  minutes. The window is anchored at the first 404 of the streak, so this can fail;
  `Detection.ThresholdBurstIff` says exactly when it holds, `Detection.LongBurstReaches` and
  `Detection.BoundIsSharp` give the bound that always suffices and show that it is the least.
- The documentation says truncation is handled. It is noticed at the first inspection that
  follows, if the file is then still shorter than the offset reached, and otherwise never:
  `LogFollower.RewriteNoticedIff`, `LogFollower.RewriteNoticedAtOnce`,
  `LogFollower.RewriteCanBeMissed`.
- The documentation says stitching resumes correctly after a restart. This is proved for the
  table. The in-memory stitcher, which feeds the printed output, starts empty:
  `Agreement.FreshSessionAgreesIff`, `Agreement.RestartForgets`.
- Memory and table use different clocks and different comparisons to expire a queue, so a tick
  can evict one side only: `Agreement.TickAgreesIff`, `Agreement.TickAgreesIffStamps` and
  `Agreement.AgreementIff` say exactly when it does not.

Verify the project with `dafny verify dfyconfig.toml`.

## Model

| member | source | states |
|---|---|---|
| `MailLog.TerminalStatusLength` | stream.go:184-191 | a status that counts as terminal is four or seven characters long, so neither the empty status nor `timed_out` is terminal |
| `MailLog.TerminalIff` | stream.go:184-191 | a status is terminal if and only if it spells "sent" or "bounced", each letter small or capital |
| `MailLog.TerminalWords` | stream.go:184-191 | sent, bounced and their capitalised forms are terminal; the empty status, deferred, expired and timed_out are not |
| `MailLog.StatusAfterMerge` | stream.go:109-163 | overwriting a non-terminal status gives a terminal one if and only if the supplied status is terminal |
| `Framing.LinesFrame` | stream.go:219-237 | the reference splitter yields consecutive lines: each begins where the one before ended and ends at its first newline |
| `Framing.LinesExhaust` | stream.go:219-237 | after the last complete line there is no newline left |
| `Framing.FramesUnlines` | stream.go:220-229 | the texts of consecutive lines, each followed by a newline, concatenate to exactly the stretch from the start to the last offset |
| `Framing.FramesAreLines` | stream.go:219-237 | consecutive lines are exactly the complete lines of the stretch they cover, so the offsets determine them |
| `Framing.FramesAgree` | stream.go:219-237 | two readings of one file from one place agree as far as the shorter one goes, however the reads were cut |
| `Framing.Resume` | stream.go:286-306 | resuming at any emitted offset yields exactly the remaining lines: lines so far + lines from that offset = all lines |
| `LogFollower.AlignedPass` | stream.go:220-243 | one read of a file that has grown keeps the emitted lines consecutive and the partial line in step; at an end of file every complete line has been emitted |
| `LogFollower.PollLeavesIff` | stream.go:245-276 | with the timer telling when the last stretch of polls that saw another inode began, an inspection leaves the file if and only if it was truncated at the path or that stretch, this poll included, is the drain timeout old; otherwise the timer keeps its meaning |
| `LogFollower.RewriteNoticedIff` | stream.go:253-260 | one turn of the loop sends the follower back to the start if and only if it met the end of the file and the inspection finds the file shorter than the offset the read left; if the file did not shrink between read and inspection, than the offset before the read |
| `LogFollower.RewriteNoticedAtOnce` | stream.go:219-281 | over any number of turns on a rewritten file that only grows from then on, the rewrite is noticed if and only if the first turn finds the file shorter than the offset reached |
| `LogFollower.StaysMissed` | stream.go:219-281 | a rewrite missed at the first turn stays missed: the follower never returns to the start and its offset stays within the file |
| `LogFollower.RewriteCanBeMissed` | stream.go:253-260 | a concrete rewrite of the same file after which the follower emits neither of its lines |
| `LogFollower.FollowLoop.constructor` | stream.go:286-306 | opening resumes at the stored offset when the inode matches and the file is long enough, otherwise at 0 |
| `LogFollower.FollowLoop.ReadString` | stream.go:220-223 | the chunk runs to the first newline inclusive, or to the end of the file |
| `LogFollower.FollowLoop.Read` | stream.go:220-237 | a completed line becomes a record with the next number and the offset past its newline; otherwise the chunk joins the partial line |
| `LogFollower.FollowLoop.Inspect` | stream.go:245-276 | the path is reopened from 0 if and only if the file was truncated there or the last stretch of polls that saw another inode began the drain timeout or more ago; otherwise reading goes on and the timer tells when that stretch began; a failed reopen is an error |
| `LogFollower.FollowLoop.Follow` | stream.go:219-243 | for any sequence of growing contents the records are consecutive lines of the final content, numbered in order, and all of them if the last pass met the end of the file |
| `Stitcher.TransactionStitcher.constructor` | stream.go:69-74 | a new stitcher has no open queue |
| `Stitcher.TransactionStitcher.Overwrite` | stream.go:94-157 | the field-by-field overwriting equals `Absorb`: supplied values replace, absent ones keep, junk accumulates, the raw line is appended |
| `Stitcher.TransactionStitcher.Apply` | stream.go:76-165 | no entry or no queue ID changes nothing; otherwise the queue is opened or updated and, when its merged status is terminal, removed and emitted |
| `Stitcher.TransactionStitcher.EvictExpired` | stream.go:167-182 | exactly the queues idle for at least the timeout are removed, and listed once each in some order, marked as timed out |
| `Stitcher.ApplyKeepsFiling` | stream.go:76-165 | every open transaction stays filed under its own non-empty queue ID, with a non-terminal status and not timed out |
| `StitcherRuns.Conservation` | stream.go:76-182 | over any run of entries and evictions, for every queue, the raw lists emitted for it followed by its open raw list are the raw lines applied for it: none lost, duplicated or moved |
| `StitcherRuns.LastTextIs` | stream.go:97-111 | the value a group shows is the last non-empty one supplied, or empty if none was |
| `StitcherRuns.LastOptionalIs` | stream.go:115-150 | the optional value a group shows is the last one supplied, or none if none was |
| `StitcherRuns.PerQueueMeaning` | stream.go:76-165 | without eviction a queue's emitted transactions are the meanings of its own entries cut just after each terminal status, and its open transaction that of the rest |
| `StitcherRuns.NonInterference` | stream.go:76-165 | entries of other queues and the clocks never influence what a queue emits |
| `MailTable.MailStore.constructor` | db.go:62-104 | a new store has empty tables and no checkpoint |
| `MailTable.MailStore.InsertRawEntry` | continuous_ingest.go:149-166 | an entry is added exactly when no stored entry has its hash, and the result says which |
| `MailTable.MailStore.FindOpen` | continuous_ingest.go:198-204 | the newest non-terminal row of the queue is found, or none |
| `MailTable.MailStore.MergeMailTransaction` | continuous_ingest.go:168-234 | the queue's newest open row is updated, or a row inserted when it has none; the table invariant is kept and closed rows are untouched |
| `MailTable.MailStore.EvictExpiredTransactions` | continuous_ingest.go:236-249 | exactly the open rows not touched since the cutoff are closed, marked, stamped and, if they had no status, given `timed_out`; all others are unchanged |
| `MailTable.MailStore.SetIngestState` | continuous_ingest.go:251-258 | the checkpoint becomes the given offset and inode |
| `MailTable.MailStore.PersistMailLogRecord` | continuous_ingest.go:118-143 | one transaction: entry, merge and checkpoint together, or nothing at all when it does not commit |
| `MailTable.MergeKeepsInvariant` | continuous_ingest.go:168-234 | a merge keeps the table invariant and changes no closed row |
| `MailTable.EvictKeepsInvariant` | continuous_ingest.go:236-249 | an eviction keeps the table invariant and changes no closed row |
| `MailTable.TableRunInvariant` | continuous_ingest.go:168-249 | over any run of merges and evictions: at most one open row per queue and it is the newest, open rows have no terminal status and no timeout, closed rows have exactly one of the two and never change again |
| `TextList.SplitJoin` | continuous_ingest.go:195 | joining newline-free lines with newlines is undone by splitting at newlines |
| `TextList.JoinSplit` | continuous_ingest.go:195 | splitting a text and joining the parts gives the text back |
| `Agreement.RawIsJoin` | continuous_ingest.go:195 | the stored text is the newline-join of the lines the row stands for |
| `Agreement.AbsorbAgrees` | continuous_ingest.go:173-197 | the UPDATE does to a row what the stitcher does to the transaction the row records, field by field |
| `Agreement.OpenAgrees` | continuous_ingest.go:218-232 | the INSERT records what the stitcher opens |
| `Agreement.FeedStep` | continuous_ingest.go:172-234 | memory emits exactly when the merge closes a row, although one tests the merged status and the other the entry's, and both hold the same data |
| `Agreement.AgreementOverRuns` | continuous_ingest.go:101-116 | started with nothing open, after any run: a queue is open in memory iff the table has its open row, all fields match, and each queue's emitted transactions are its closed rows in order |
| `Agreement.EmissionOrder` | continuous_ingest.go:101-116 | without eviction, what memory emits is one for one and in order what the rows record when the table turns them terminal |
| `Agreement.TickAgreesIff` | continuous_ingest.go:72-80 | whatever the clocks, an eviction tick keeps the agreement if and only if memory and table reach the same verdict about every open queue |
| `Agreement.AgreementIff` | continuous_ingest.go:50-116 | over any run from nothing open, memory and table agree at every moment if and only if every tick reached the same verdict in both |
| `Agreement.TickAgreesIffStamps` | continuous_ingest.go:72-80 | when no row is stamped later than its queue in memory, a tick keeps the agreement if and only if no open queue has the cutoff strictly between its two stamps or on both |
| `Agreement.StampedAgreement` | continuous_ingest.go:50-116 | with row stamps taken no later than memory stamps and no such tick, the agreement holds through entries and evictions alike |
| `Agreement.OneClockBoundary` | continuous_ingest.go:72-80 | were the two stamps equal, a tick would keep the agreement if and only if no open queue had been idle for exactly the timeout |
| `Agreement.FreshSessionAgreesIff` | continuous_ingest.go:39 | a session, whose stitcher starts empty, starts in agreement if and only if the table has no open row |
| `Agreement.RestartForgets` | continuous_ingest.go:39 | when a queue left open by an earlier session closes, the table records all its lines and memory emits only the last |
| `Placement.NeverOverwrites` | continuous_ingest.go:59-60 | a write to the reorder buffer never replaces a record that is there |
| `Placement.LocalSession` | continuous_ingest.go:85-99 | sends, worker steps and buffer writes keep every awaited record in exactly one place and unaltered |
| `Placement.ProcessSession` | continuous_ingest.go:61-71 | the record processed is the next one in reading order, parsed from its own text |
| `Placement.ReadSession` | stream.go:223-237 | a newly read record takes the next number and joins the records in flight |
| `ExactlyOnce.CheckpointIsLast` | continuous_ingest.go:136-141 | after any sequence of transactions the checkpoint is the end and inode of the last committed line |
| `ExactlyOnce.StartFollows` | stream.go:286-306 | opening from the checkpoint puts the follower right after the last committed line of the file at the path |
| `ExactlyOnce.StepInv` | continuous_ingest.go:20-83 | every step of files, follower, workers, coordinator, eviction, crash and restart keeps the pipeline invariant |
| `ExactlyOnce.RunInv` | main.go:164-175 | the invariant holds after every legal run, with any crashes and restarts |
| `IngestTheorems.ExactlyOnceAcrossCrashes` | continuous_ingest.go:20-143 | over any schedule, crashes and rotations the database is a sequential run of its history, which is the commits and evictions that ran, in that order; the lines committed are, of each file, the first ones, once each and in file order; the checkpoint is the end of the last one, a line boundary |
| `IngestTheorems.ExactlyOnceOneFile` | continuous_ingest.go:20-143 | for one growing file, the tables equal a sequential run of exactly the complete lines of the content up to the checkpoint, interleaved as they ran with exactly the evictions that ran |
| `IngestTheorems.RotationIsDrained` | stream.go:245-276 | each inspection of the path follows a last read to the end of the file, and every complete line the file held at that read has been read; the file is left only when, for at least the drain timeout, every end-of-file poll saw another inode |
| `IngestTheorems.RotationLeftIff` | stream.go:245-276 | over every run, an inspection decides to leave the file if and only if the last stretch of polls since the file was opened, read off the steps of the run and this one included, all saw another inode and began the drain timeout or more ago |
| `IngestTheorems.RunPolls` | stream.go:241-281 | the polls a follower has recorded are the inspections of the run since its file was opened, with what the path named at each |
| `IngestTheorems.EofReadsAll` | stream.go:220-243 | a read that meets the end of the file has taken everything it held, and every complete line is in the stream |
| `IngestTheorems.EofIsHeld` | stream.go:241-250 | between that read and the inspection of the path the follower does not move |
| `IngestTheorems.LastEndOfFile` | stream.go:219-250 | whenever the follower stands at an end of file, some step of the run was the read that met it; the follower has since not inspected the path, its offset is the length the file then had and the file has only grown |
| `OrderTheorems.EveryRecordInOnePlace` | continuous_ingest.go:29-71 | in every state of every run each unprocessed record is in exactly one place, processed ones in none |
| `OrderTheorems.ProcessedInOrder` | continuous_ingest.go:59-71 | what a session has committed is exactly records 0 up to the next one, in that order, whatever order the workers finish in |
| `OrderTheorems.EntriesDeduplicated` | continuous_ingest.go:149-166 | maillog_entries holds one row per distinct line hash among the committed entries, and nothing else |
| `OrderTheorems.ClosedRowsAreFinal` | continuous_ingest.go:168-249 | over whole runs with crashes a closed row never changes and no row disappears |
| `Progress.WorkLowersWeight` | continuous_ingest.go:50-99 | every send, worker and coordinator step lowers the stage-weighted number of records in flight |
| `Progress.QuietMeansDone` | continuous_ingest.go:50-99 | when no such step is enabled the buffer is empty and everything read is processed |
| `Progress.Backpressure` | continuous_ingest.go:29-30 | in every state of every run neither channel holds more than 1024 records, and a send or delivery waits exactly while its channel is full |
| `Progress.AlwaysEnabled` | continuous_ingest.go:50-99 | in every running state of every run, while a record is on its way such a step is enabled |
| `Progress.WorkTerminates` | continuous_ingest.go:50-99 | left alone, the pipeline takes at most that many steps in any order, and stops only with everything processed |
| `Progress.CaughtUp` | continuous_ingest.go:20-83 | when the follower stands at an end of file and the pipeline rests, every complete line the file held at the read that met that end is committed |
| `SessionAgreement.SessionsAgree` | continuous_ingest.go:101-116 | in every state of every run, a session that started with nothing open and whose ticks concurred holds the table's open rows in memory and has printed exactly the rows closed since |
| `SessionAgreement.SessionIsItsOps` | continuous_ingest.go:39-116 | in every state of every run, the open queues, the output and the table of a session are what the two stitchers make, from an empty memory and the rows found at the start, of the entries committed and the evictions run since, each with the clocks of its own step |
| `TableMeaning.TableMeans` | continuous_ingest.go:118-249 | after any run with crashes, rotations and evictions, the rows of each queue are told by its own committed entries and the sweeps: closed rows record its groups in order, cut at a terminal status or an expiry, and one open row the rest if there is one |
| `TableMeaning.TableKeepsLines` | continuous_ingest.go:118-249 | after any run the lines of a queue's closed rows in order, followed by those of its open row, are exactly the raw lines of the entries committed for it |
| `TableMeaning.TableIsCut` | continuous_ingest.go:118-234 | after any run without eviction, with any crashes and rotations, the closed rows of a queue are the meanings of its committed entries cut just after each terminal status, and its open row is the meaning of the rest |
| `Coordinator.Coordinator.constructor` | continuous_ingest.go:39-42 | a session starts with an empty buffer, number 0 and an empty stitcher |
| `Coordinator.Coordinator.ProcessParsedRecord` | continuous_ingest.go:101-116 | persist first, then stitch and print; a record that does not commit changes nothing |
| `Coordinator.Coordinator.ProcessInTurn` | continuous_ingest.go:66-70 | the next record leaves the buffer, and the number moves on only when it committed |
| `Coordinator.Coordinator.Receive` | continuous_ingest.go:59-71 | the arriving record is buffered and the whole run of consecutive numbers is processed in ascending order, stopping early only at the first record that does not commit |
| `Coordinator.Coordinator.Drain` | continuous_ingest.go:61-71 | the inner loop enters the run of consecutive numbers in order and stops at the first that is missing or does not commit, with everything that had its turn out of the buffer |
| `Coordinator.Coordinator.Evict` | continuous_ingest.go:72-80 | memory and then the table are evicted, and what memory expired is printed |
| `Coordinator.DrainRefines` | continuous_ingest.go:59-71 | any number of consecutive machine steps of the inner loop leaves database, queues, output and buffer as the method does |
| `LegacyTimestamp.YearLength` | parser.go:230-242 | consecutive years are 365 or 366 days apart, by the leap rule |
| `LegacyTimestamp.MonthLength` | parser.go:232-235 | the same day and clock in the next month is 31, 30, 28 or 29 days later as the calendar says, for every year and month, December to January included |
| `LegacyTimestamp.DateWithinMonth` | parser.go:232-235 | days are 24 hours apart, the clock counts from midnight and a zone further east is earlier |
| `LegacyTimestamp.Epoch` | parser.go:232-235 | instants count from the first of January of year 1, which puts 1970 at the Unix epoch |
| `LegacyTimestamp.ShowIsDate` | parser.go:81-96 | a whole-second instant is the date of its own year, month, day and clock |
| `LegacyTimestamp.ShownInMonth` | parser.go:81-96 | what is shown of an instant is a real day of its month, the second that contains the instant, in the year that contains it |
| `LegacyTimestamp.CandidatesApart` | parser.go:232-235 | the same month, day and clock in consecutive years are 365 or 366 days apart, normalised days included |
| `LegacyTimestamp.NearestOfAllYears` | parser.go:230-242 | the chosen instant is at least as near to now as that of any year, for every day from 0 to 99 |
| `LegacyTimestamp.WithinHalfYear` | parser.go:230-242 | the chosen instant lies within 183 days of now |
| `LegacyTimestamp.RoundTrip` | parser.go:81-96 | any whole-second instant less than 182.5 days from now, reduced to month, day and clock, is recovered exactly |
| `LegacyTimestamp.WrittenYearIsFound` | parser.go:230-242 | whatever year a line was written in, reading it less than 182.5 days before or after that instant infers that instant |
| `LegacyTimestamp.HalfYearIsAmbiguous` | parser.go:234-239 | at exactly 182.5 days another year's instant is chosen, so the bound is sharp |
| `LegacyTimestamp.AbsDuration` | parser.go:244-249 | the distance of a duration from zero |
| `LegacyTimestamp.ChooseNearest` | parser.go:232-241 | the loop keeps the nearest of this, last and next year's candidate, earlier tries winning ties |
| `LegacyTimestamp.InferLegacyTimestamp` | parser.go:230-242 | the result is that choice; no year's instant is nearer and it is within 183 days |
| `Detection.NginxStore.constructor` | db.go:106-140 | the tables start empty |
| `Detection.NginxStore.FlagSecurityOffender` | nginx_security.go:311-325 | an offender keeps its first sighting and takes reason, time, count and path from the new flag |
| `Detection.NginxStore.CountNotFound` | nginx_security.go:257-279 | the upsert extends the streak or starts it anew, and returns its length |
| `Detection.NginxStore.CountAuthFailures` | nginx_security.go:295-301 | the number of positions of stored 401s and 403s of the address in the closed interval |
| `Detection.NginxStore.UpdateNginxDetection` | nginx_security.go:256-307 | the address's state moves on, and it is flagged when its streak or its stored failures in the window reach the threshold |
| `Detection.NginxStore.PersistNginxEvent` | nginx_security.go:227-254 | one transaction per line: events, states, offenders and checkpoint; a line that did not parse only moves the checkpoint |
| `Detection.StateIsOwn` | nginx_security.go:256-292 | an address's detection state is a function of its own counted events alone |
| `Detection.Flag404Iff` | nginx_security.go:280-283 | a counted 404 is flagged exactly when its address's streak has reached the threshold, with that count |
| `Detection.StateMeans` | nginx_security.go:259-290 | a state is stored exactly for addresses with a counted 404; a stored counter c means the last c counted events are 404s in time order within the window of the first, whose time is the stored start |
| `Detection.EventsAreKept` | nginx_security.go:235-243 | the event table is exactly the 401s, 403s and 404s of the log, in order, ignored paths included |
| `Detection.IgnoredLeaveNoTrace` | nginx_security.go:244-248 | 404s on ignored paths change neither the detection states nor the offenders |
| `Detection.Flag404IsBacked` | nginx_security.go:256-284 | every consecutive-404 flag is backed by at least the threshold of such events, with nothing of that address between them |
| `Detection.StreakDuringBurst` | nginx_security.go:262-274 | the exact streak after each event of a burst, for any earlier events |
| `Detection.ReachesIff` | nginx_security.go:256-284 | a burst is flagged if and only if its part inside the old window tops up the live streak, or the rest alone is as long as the threshold |
| `Detection.LongBurstReaches` | nginx_security.go:256-284 | 2T-2 such events (one, when T is 1) always bring the streak to T, whatever came before |
| `Detection.ThresholdBurstIff` | nginx_security.go:256-284 | T such events are flagged if and only if the first extends no live streak or the streak and its carried events reach T |
| `Detection.BoundIsSharp` | nginx_security.go:256-284 | for every threshold there are 2T-3 such events that go unflagged |
| `Detection.BurstIsFlagged` | nginx_security.go:227-284 | in any log, 2T-2 counted events of an address that form a burst include one that is flagged when it arrives, whatever is interleaved |
| `Detection.AuthFlagIff` | nginx_security.go:294-305 | a 401 or 403 is flagged if and only if at least T of the address's 401s and 403s so far, counted as a set of log positions, lie in the closed window ending at it |
| `Detection.AuthFlagIsBacked` | nginx_security.go:294-305 | every authentication flag falls on a 401 or 403 and reports exactly the number of 401s and 403s of that address so far in the closed window ending at it, at least T |
| `Detection.OthersAreNotFlagged` | nginx_security.go:244-307 | an event with any other status, or a 404 on an ignored path, is never flagged |
| `Detection.FailuresAreFlagged` | nginx_security.go:234-305 | any T failures spanning at most the window flag the address no later than the last, whatever is interleaved |
| `Detection.OffendersAreFlagged` | nginx_security.go:311-325 | the offender table holds exactly the addresses flagged so far, with the first and the latest flag |
| `Forwarding.IsTrustedProxy` | nginx_security.go:180-187 | true exactly when one of the trusted networks contains the address |
| `Forwarding.ForwardedClientIp` | nginx_security.go:170-178 | the rightmost hop that parses to an untrusted address, or none if there is no such hop |
| `Forwarding.SelectIsLastOutside` | nginx_security.go:170-178 | the scan yields an address exactly when some hop parses to one outside the trusted networks, and then the last such |
| `Forwarding.ClientAddress` | nginx_security.go:100-109 | none if and only if the peer does not parse; the last hop outside the trusted networks when the peer is inside them and there is such a hop; the peer in every other case |
| `Forwarding.PrependedTextIsIgnored` | nginx_security.go:170-178 | text and a comma in front of a header never change the address it yields |
| `Forwarding.UntrustedPeerDecides` | nginx_security.go:105-109 | with an untrusted peer the header has no effect |
| `Forwarding.AppendedHopWins` | nginx_security.go:105-178 | behind a trusted proxy an eligible last hop is attributed whatever precedes it |
| `EvictionTiming.TickInterval` | continuous_ingest.go:43-46 | half the timeout to within one nanosecond below two minutes, a minute from there on, always positive and at most the timeout |
| `EvictionTiming.NeverTooEarly` | stream.go:167-182 | whatever a sweep emits as timed out had its queue's latest entry at least the timeout earlier |
| `EvictionTiming.StaysOpenIff` | continuous_ingest.go:72-80 | in any run a queue that gets no further entry is open, unchanged, if and only if no sweep has yet found it idle for the timeout |
| `EvictionTiming.EvictedInTime` | continuous_ingest.go:43-48 | in any run with punctual ticks, however busy other queues are, a queue that gets no further entry stays up to one sweep and is gone after it; by then it has been idle for at least the timeout and less than the timeout plus one interval |
| `EvictionTiming.RowEvictedInTime` | continuous_ingest.go:236-249 | in any run of merges and punctual evictions, a row that gets no further entry stays as it is up to the first eviction past its stamp by more than the timeout, at most one interval later, and is closed from then on |

## Left out

- Field extraction by regular expression and JSON when parsing mail and access log lines, URL normalisation and SHA-256: library semantics; the line hash is the field `rawHash`.
- Daylight saving and zones whose offset changes; saturation of durations beyond 292 years.
- Rounding in REAL columns. A value the database refuses (a size beyond 32 bits, a zero byte in a text) is a transaction that does not commit, hence a crash step.
- Advisory and row locks: each transaction is one atomic step, so they are not visible.
- Files that shrink, and inodes that return to the path, in the pipeline theorems; the follower's own reaction to them is modelled.
- The access log ingestor's loop, which is the same follower with a single consumer; its transaction is modelled by `Detection.NginxStore.PersistNginxEvent`.
- Dismissing and deleting offenders, the allowlists, the firewall client and agent, user accounts and sessions, the HTTP server and its queries, the frontend, configuration and deployment.
- Errors while printing to standard output, which end a session like any other error.
- `StateAfter` and the detector lemmas take the 404 window at the microsecond resolution of the query parameter.
