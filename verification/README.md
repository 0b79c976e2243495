# Verified models of Logweir's evidence tools

This Dafny project models five Python programs of the Logweir repository and proves what their
results mean. Every claim is a contract checked by the verifier; nothing here runs the programs.

- `docs/verify_scorecard.py`, the independent evidence verifier: the arms of the drill scorecard
  (`Scorecard`, `ScorecardArms`, `ScorecardTheorems`, `ScorecardVersions`), of the backup receipt
  (`Receipt`, `ReceiptArms`, `ReceiptTheorems`), of the positions-mapping document
  (`PositionsMapping`) and of the consumer-positions document (`ConsumerPositions`,
  `PositionsTheorems`, `PositionsWitnesses`), with its calendar, instants, encodings and topic IDs (`Calendar`,
  `Instants`, `Encodings`, `TopicId`, `Decimal`, `Versions`).
- `scripts/ci-trace.py`, the strace interpreter: lexer, argument splitter, event matcher, replay of
  working directories over shared cells, and the check decision (`StraceLexer`, `StraceArgs`,
  `StraceEvents`, `PosixPath`, `StraceReplay`, `TraceCheck`), and when each of them fails (`StraceErrors`).
- `scripts/withdrawn-claim-scan.py`, the phrase scan with its line map (`Whitespace`, `PhraseScan`).
- `scripts/bind-credential.py`, the canonical forms and the guarded write (`CredentialForms`,
  `BindGuard`).
- `scripts/reaper-linkage-walk.py`, the reverse-dependency worklist (`LinkageWalk`).

A document is a datatype with optional fields, as it is once the shape layer has accepted it. A
verdict is the name of the first failing arm, or none. A loop that updates variables is a method
with invariants, proved equal to a specification function or to a stated property; the theorems are
about those specifications. A cell the replay shares between processes is an object.

What the proofs found in the code:

- An instant whose UTC year is outside 0 to 9999 prints to a text its own reader refuses.
- The scorecard's and the receipt's readers order two instants differently around a leap second. The
  receipt's alone takes a day, up to 31, that the month does not have; on a year 0 the scorecard
  takes, it ends in an uncaught exception.
- Breaking a line is harmless to the phrase scan exactly when the marker cut takes the added marker
  and nothing more; a marker glued to a following `/` or `!` is one that is not.
- Every set of two or more Kafka servers shares its bootstrap row with the one server that is the row;
  one server shares its row exactly when it is empty or is two stripped texts in order around a comma.
- The row of a CA reference is ambiguous exactly when a slash is in its name or key. This is of the
  function on JSON nobody validated: the schema of KafkaCluster admits no such reference.
- A scorecard's segments are verified in total only: partition by partition they are exactly when no
  partition claims more of them verified than it has.
- A receipt's record counts are not bounded below, so an empty capture may count minus one.
- The six counts of a captured group cover its partitions exactly while no counter saturates.
- A captured position is within its marks exactly when its coverage word is neither PositionBeyondEnd
  nor MarksNotRead.
- A trace ends the check with an uncaught exception, not with its own error, exactly when the first
  call that fails holds a bad escape: a backslash that is the last character, or is before `8`, `9`,
  an `x` without a hexadecimal pair, or an octal number above 377.

`dafny verify dfyconfig.toml` checks the whole project.

## Model

| member | source | states |
|---|---|---|
| `Calendar.DaysAreCounted` | docs/verify_scorecard.py:1753-1760 | the closed-form day number of every valid proleptic Gregorian date is what counting whole years, whole months and days one at a time counts, before and after 1970 |
| `Calendar.CivilOfDays` | docs/verify_scorecard.py:1753-1774 | every valid date survives conversion to a day number and back |
| `Calendar.DaysOfCivil` | docs/verify_scorecard.py:1753-1774 | every integer, negative ones included, converts to a valid date and back to itself |
| `Calendar.DayOrderIsDateOrder` | docs/verify_scorecard.py:1753-1760 | one day number is smaller than another exactly when its date comes earlier by year, month and day |
| `Instants.ReadIsWellFormed` | docs/verify_scorecard.py:1777-1808 | what the reader returns has a fraction below one second, or below two exactly at the last second of a UTC minute (a leap second) |
| `Instants.PrintAndReadBack` | docs/verify_scorecard.py:1777-1834 | an instant prints to a text that reads back as itself, offsets normalised, 0, 3, 6 or 9 digits, leap seconds included, if and only if its UTC year is 0 to 9999 |
| `Instants.AReadableInstantPrintsUnreadably` | docs/verify_scorecard.py:1777-1834 | a text the reader takes, the last minute of the year 9999 a minute west of UTC, is an instant of the year 10000 whose printed text the reader refuses |
| `Instants.LeapSecondSortsInItsMinute` | docs/verify_scorecard.py:1777-1808 | a leap second sorts after every other second of its own UTC minute and before the next minute |
| `Instants.ReadersAgreeOnTheLine` | docs/verify_scorecard.py:1026-1046 | every text the instant reader of the scorecard takes is placed by the nanosecond reader of the receipt at the same point of the time line if and only if its year is not 0; in the year 0 the receipt reader raises an exception |
| `Instants.OnlyTheReceiptReads` | docs/verify_scorecard.py:1026-1046 | the texts only the receipt's reader takes are exactly those of a day up to 31 that the month does not have, of a year other than 0 |
| `Instants.OnlyTheReceiptReadsThis` | docs/verify_scorecard.py:1026-1046 | a concrete text, of the 30th of February, is such a text |
| `Instants.TheYearZeroRaises` | docs/verify_scorecard.py:1026-1046 | a concrete text of the year 0 is an instant for the scorecard and an uncaught exception for the receipt |
| `Instants.OrdersPartAtLeapSeconds` | docs/verify_scorecard.py:1026-1046 | the two readers order two instants differently exactly when one is in the second after the leap second of the other, at no later a fraction of it (equal fractions aside in one direction) |
| `Instants.TheReadersOrderALeapSecondDifferently` | docs/verify_scorecard.py:1026-1046 | two texts both readers take, one half way through a leap second and one two tenths after it, are in one order for the scorecard and in the other for the receipt |
| `Encodings.Utf8IsInjective` | docs/verify_scorecard.py:1323-1335 | UTF-8 of two different texts differs |
| `Encodings.PaeIsInjective` | docs/verify_scorecard.py:1323-1335 | two pre-authentication encodings are the same bytes if and only if the payload type and the payload are the same (DSSE v1, protocol.md) |
| `Encodings.TwoPassesAreOne` | docs/verify_scorecard.py:1285-1302 | replacing backslashes and then quotes is escaping each character once |
| `Encodings.RustDebugIsPrefixCode` | docs/verify_scorecard.py:1285-1302 | a quoted text followed by anything reads back as that text and that rest |
| `Encodings.RenderedSetsAreSets` | docs/verify_scorecard.py:4368-4376 | two rendered topic sets are the same text if and only if the sets of names are equal, whatever order or repeats they were given in |
| `TopicId.EncodedDecodes` | docs/verify_scorecard.py:1166-1187 | decoding undoes the unpadded URL-safe base64 encoding of any bytes (RFC 4648 sections 3.5 and 5) |
| `TopicId.DecodedEncodes` | docs/verify_scorecard.py:1166-1187 | a text of the alphabet re-encodes to itself exactly when its last character carries no stray bits |
| `TopicId.CanonicalBySight` | docs/verify_scorecard.py:1171-1187 | the accepted texts are exactly those of 22 characters of the alphabet whose last is A, Q, g or w, other than the two reserved ones |
| `TopicId.CanonicalTextsAreRealIds` | docs/verify_scorecard.py:1166-1187 | encoding and decoding are inverse between the accepted texts and the 16-byte values other than the two reserved ones |
| `ScorecardArms.SumPartitions` | docs/verify_scorecard.py:3412-3420 | the loop of arm IV-7 adds the partitions into twelve saturating totals |
| `ScorecardArms.CheckInvariants` | docs/verify_scorecard.py:2602-3935 | the first failing arm in the order of the code, over the totals its loop adds up; no arm fails if and only if each block holds on its own, the earlier arms notwithstanding |
| `ScorecardTheorems.TotalsAreClampedSums` | docs/verify_scorecard.py:821-824 | each of the twelve totals is the true sum over the partitions clamped once to 2^64-1 |
| `ScorecardTheorems.TotalsIgnoreOrder` | docs/verify_scorecard.py:3412-3420 | permuting the partitions changes none of the totals |
| `ScorecardTheorems.CompletePass` | docs/verify_scorecard.py:3376-3436 | an accepted pass with complete coverage has a covered block with at least one partition; every partition was compared with expected = restored = matching and no fault, so has the total; no segment failed or was left unverified; every stated total is the clamped sum; and partitions the selection leaves out (arm PS-5) expected, restored and matched nothing |
| `ScorecardTheorems.CompletePassVerifiesEverySegment` | docs/verify_scorecard.py:3393-3436 | while neither sum saturates, the segments verified, summed over the partitions, are the segments read |
| `ScorecardTheorems.SegmentsVerifiedOneByOne` | docs/verify_scorecard.py:3393-3436 | in an accepted complete pass whose segments do not saturate, every partition has all its segments verified if and only if no partition claims more verified than it has |
| `ScorecardTheorems.PartitionSegmentsAreNotCompared` | docs/verify_scorecard.py:3393-3436 | a concrete accepted complete pass lists a partition with two segments and one verified beside one that claims more than it has |
| `ScorecardTheorems.FormatTwoIsTheSubsetFormat` | docs/verify_scorecard.py:2954-2959 | an accepted document has major 2 if and only if its selection names a partition subset, a named subset is never empty, and such a document carries no original-name block |
| `ScorecardTheorems.OriginalNameIsComplete` | docs/verify_scorecard.py:3692-3705 | an accepted passing restore under the original names was verified completely, with everything a complete pass entails |
| `ScorecardVersions.GatesStayOpen` | docs/verify_scorecard.py:1381-1468 | every version gate that is open at a minor is open at every later minor of the same major |
| `ScorecardVersions.AnOlderMinorOnlyClosesGates` | docs/verify_scorecard.py:1381-1468 | for two minors of one major, a document is accepted at the older exactly when it is accepted at the newer and every versioned field it carries is defined at the older |
| `ScorecardVersions.MinorUpgrade` | docs/verify_scorecard.py:2602-3935 | raising the minor and changing nothing else never loses an accept |
| `PositionsMapping.NotCapturedReasons` | docs/verify_scorecard.py:1558-1565 | a reason that is in the unavailable set and starts with NotCaptured is NotCaptured, a colon, a space and a non-empty text |
| `PositionsMapping.CountEntries` | docs/verify_scorecard.py:1642-1649 | the counting loop tallies every entry of every group, in whatever order the groups come |
| `PositionsMapping.VerifiedPartitions` | docs/verify_scorecard.py:1655-1659 | the dict `verified` holds, for each topic and partition, the restored topic of the last listed partition |
| `PositionsMapping.CheckGroup` | docs/verify_scorecard.py:1660-1705 | the arms of one group: its reason, then PMD-5 and PMD-6 of each entry in order |
| `PositionsMapping.CheckDocument` | docs/verify_scorecard.py:1610-1706 | the verdict is the first failing arm of PMD-1 to PMD-7 in the order of the code |
| `PositionsMapping.PairHolds` | docs/verify_scorecard.py:1610-1706 | there is no fault exactly when the binding holds and every group and every entry does, so the order of the groups decides nothing |
| `PositionsMapping.CountsCoverEveryEntry` | docs/verify_scorecard.py:1642-1654 | each of the three counts of the block is the number of entries of its class over all groups, the block counts the groups, and every entry is of one of the three classes |
| `PositionsMapping.MappedEntriesLand` | docs/verify_scorecard.py:1655-1705 | in an accepted scorecard and mapping, every exact or approximate entry names a compared partition whose replay was exact, with its restored topic and an offset that is not negative; every PartitionNotRestored entry names no listed partition; a group with a reason has no entry |
| `ReceiptTheorems.AnOlderMinorOnlyClosesGates` | docs/verify_scorecard.py:4410-5133 | for two readable versions of format 1, a receipt is accepted at the older exactly when it is accepted at the newer and every versioned field it carries is defined at the older |
| `ReceiptTheorems.MinorUpgrade` | docs/verify_scorecard.py:4379-5133 | raising the minor of a receipt and changing nothing else never loses an accept |
| `ReceiptTheorems.BlocksShareTheirTopics` | docs/verify_scorecard.py:4434-4445 | the record counts and every present per-topic block of an accepted receipt cover one set of topics, and configuration entries come with the read behind them |
| `ReceiptTheorems.EmptyWindow` | docs/verify_scorecard.py:5083-5092 | an accepted empty window carries watermarks for exactly the counted topics, every low equal to its high, counts no record, and judges no topic for schema dependency; the counts are all zero exactly when none is negative |
| `ReceiptTheorems.CountsMayBeNegative` | docs/verify_scorecard.py:5323-5338 | a concrete accepted empty capture counts minus one record: the shape layer does not bound the counts and the arm looks only for positive ones |
| `ReceiptTheorems.JudgedRecordsAreCounted` | docs/verify_scorecard.py:4729-4811 | when every topic is judged completely, the judged records are the counted ones topic by topic; otherwise their total is at most the total counted, while no count is negative |
| `ReceiptTheorems.VerdictIsTheThreshold` | docs/verify_scorecard.py:4753-4856 | a judged topic is schemaDependent exactly when on one side at least one record and at least one in ten of the non-null records is framed; it is unjudged exactly when it has no sides |
| `ReceiptTheorems.EntriesFollowTheRead` | docs/verify_scorecard.py:4585-4655 | a topic of an accepted receipt has configuration entries exactly when its configuration was read, and an entry lacks a value exactly when it is a secret |
| `ConsumerPositions.Count` | docs/verify_scorecard.py:988-1003 | the counting loop fills six 32-bit counters, each saturating |
| `ConsumerPositions.ReadPartitions` | docs/verify_scorecard.py:5425-5453 | the loop over a topic's partitions stops at the first CP-5 or CP-6 fault and otherwise records each partition's facts under its place |
| `ConsumerPositions.ReadTopics` | docs/verify_scorecard.py:5422-5466 | the loop over the topics finds the first fault of CP-5 to CP-7; with none, `changed`, `unread` and `facts_at` are exactly the changed topics, the topics without a partition and the facts of every partition |
| `ConsumerPositions.FirstOutOfPlace` | docs/verify_scorecard.py:5512-5521 | the walk of arm CP-11 finds the first entry that names no partition or does not come after the one before it, if there is one |
| `ConsumerPositions.CheckPositions` | docs/verify_scorecard.py:5509-5607 | arms CP-11 to CP-14 of one captured group |
| `ConsumerPositions.CheckDocument` | docs/verify_scorecard.py:5373-5609 | the verdict is the first failing arm of CP-1 to CP-14 in the order of the code |
| `PositionsTheorems.CountersAreClamped` | docs/verify_scorecard.py:988-1003 | each counter is the true number of entries of its slot clamped once to 2^32-1 |
| `PositionsTheorems.CountsAddUp` | docs/verify_scorecard.py:988-1008 | the six counts add up to the entries and the partitions without a committed position exactly when no counter saturates, and never to more |
| `PositionsTheorems.PlacesAreCounted` | docs/verify_scorecard.py:5422-5453 | the places recorded in `facts_at` are as many as the partitions of the topics, added up |
| `PositionsTheorems.Conservation` | docs/verify_scorecard.py:5513-5607 | for every captured group of an accepted receipt and document, the six counts sum to the partitions of all named topics exactly when no counter saturates (always, below 2^32 partitions); not_observed is the number of unobserved partitions; never_committed is the number of observed partitions not listed |
| `PositionsTheorems.NotObservedIsTheSame` | docs/verify_scorecard.py:5513-5607 | every captured group reports the same not_observed |
| `PositionsTheorems.PositionsMean` | docs/verify_scorecard.py:5483-5597 | in every captured group a kept position counts as related exactly when it lies between the marks and inside the archived range or one past its end; an excluded one lies above the high watermark; none is kept on a topic that changed during the capture; every named topic has a partition |
| `PositionsTheorems.CapturedWithinTheMarks` | docs/verify_scorecard.py:5546-5597 | a captured position of an accepted receipt and document is at or below its high watermark, with both marks read, if and only if its coverage word is neither PositionBeyondEnd nor MarksNotRead |
| `PositionsWitnesses.CountsMayMissAPartition` | docs/verify_scorecard.py:988-1008 | a concrete accepted receipt and document, of a topic with 2^32 partitions that all failed, whose six counts add up to one partition fewer |
| `PositionsWitnesses.CapturedMayBeBeyondTheEnd` | docs/verify_scorecard.py:5546-5597 | a concrete accepted receipt and document keep, in a captured group, a position above the high watermark: arm CP-13 only demands the matching coverage word |
| `StraceLexer.CString` | scripts/ci-trace.py:72-101 | the one-pass lexer returns the literal's bytes, the index after it and the truncation mark, or tells the script's own error from the exception a malformed escape raises (`StraceErrors` says when); a hex pair is read as Python's int reads it, one sign and spaces included |
| `StraceLexer.PrintedLiteralReadsBack` | scripts/ci-trace.py:72-101 | a byte string printed with plain, simple, hexadecimal or unambiguous octal spellings is read back as those bytes, with its end and its truncation mark |
| `StraceArgs.SplitArgs` | scripts/ci-trace.py:104-132 | the one-pass splitter with its depth and buffer returns the arguments of the recursive reading |
| `StraceArgs.ReadsOver` | scripts/ci-trace.py:104-132 | reading a balanced argument adds exactly its text to the current argument and leaves the depth as it was, whatever follows other than a dot, which could be part of a truncation mark |
| `StraceArgs.SplitUndoesJoin` | scripts/ci-trace.py:104-132 | comma-joined balanced arguments, ended by a closing bracket or the end of the line, are returned exactly, strings and nested groups whole |
| `StraceEvents.Events` | scripts/ci-trace.py:142-170 | the one-pass matcher with its dict of waiting calls returns the completed calls in order |
| `StraceEvents.OwnLinesSuffice` | scripts/ci-trace.py:142-170 | the calls recovered for a pid are those recovered from its own lines alone |
| `StraceEvents.InterleavingIndependence` | scripts/ci-trace.py:142-170 | two traces with the same lines of a pid, interleaved with anything else, give that pid the same calls |
| `StraceEvents.EventsAreNumbered` | scripts/ci-trace.py:142-170 | every call starts at or before its end, ends are strictly increasing, and no line starts two calls |
| `PosixPath.NormPathIsIdempotent` | scripts/ci-trace.py:249-250 | a normalised path normalises to itself |
| `PosixPath.NormalFormIsThePlace` | scripts/ci-trace.py:249-250 | the normal form of an absolute path leads where walking the path from the root, component by component, leads; two absolute paths have one normal form if and only if they have one root and lead to one place |
| `PosixPath.JoinedPathsWalkOn` | scripts/ci-trace.py:249-250 | a relative path joined to a directory leads where walking its components from that directory leads |
| `StraceReplay.TimelineIsInOrder` | scripts/ci-trace.py:192-200 | the timeline is sorted by line, spawns before completions |
| `StraceReplay.TimelineHolds` | scripts/ci-trace.py:192-200 | the timeline has exactly the entries of the events |
| `StraceReplay.TimelineHasNoTies` | scripts/ci-trace.py:192-200 | no two entries of a trace's timeline have the same key, so the order does not depend on the sort |
| `StraceReplay.SameGroupIsEquivalence` | scripts/ci-trace.py:201-214 | sharing a working directory is an equivalence after every prefix |
| `StraceReplay.GroupsShareTheDirectory` | scripts/ci-trace.py:201-254 | processes that share have the same directory after every prefix |
| `StraceReplay.CellOf` | scripts/ci-trace.py:204-207 | the cell of a pid, made on first sight, keeps the cells a refinement |
| `StraceReplay.SpawnChild` | scripts/ci-trace.py:209-214 | aliasing or copying the parent's cell keeps the cells a refinement of the view after the spawn |
| `StraceReplay.MoveGroup` | scripts/ci-trace.py:218-254 | writing the caller's cell keeps the cells a refinement of the view in which the whole group moved |
| `StraceReplay.Replay` | scripts/ci-trace.py:181-258 | the replay over shared mutable cells finds exactly the paths, each with its call and the caller's executable, or the first error, of the operating system's view; after any timeline two seen pids alias one cell exactly when they share in that view, and the cell holds the shared directory |
| `StraceReplay.GroupsAreLinesOfDescent` | scripts/ci-trace.py:201-214 | two processes share a directory if and only if CLONE_FS births, each taken at the moment of the birth, lead both back to one process that was first seen or spawned apart |
| `StraceReplay.ExecutedExecutables` | scripts/ci-trace.py:201-257 | the dict of executables holds, for every process, what it last executed successfully or inherited at its spawn |
| `StraceReplay.SpawnComesAtItsStart` | scripts/ci-trace.py:192-200 | a spawn precedes exactly the completions at or after the clone's START line, the child's own early lines included |
| `StraceReplay.ChildStartsWithParent` | scripts/ci-trace.py:181-214 | a child's call resolves against its parent's directory at the clone's START line until its group moves or its pid is spawned again |
| `StraceReplay.DirectoryStays` | scripts/ci-trace.py:204-254 | a process keeps its directory until an entry gives it another group or directory |
| `StraceReplay.OnlySpawnsJoin` | scripts/ci-trace.py:209-214 | without a CLONE_FS spawn no two processes share a directory |
| `StraceReplay.SpawnsJoin` | scripts/ci-trace.py:209-214 | a CLONE_FS spawn joins child and parent for as long as neither pid is spawned again, whatever either does |
| `StraceErrors.StepFails` | scripts/ci-trace.py:83-96 | a character or escape cannot be read if and only if it is a backslash that is the last character, or stands before 8 or 9, before x and a pair `int` refuses, or before three octal digits above 377 |
| `StraceErrors.MalformedIsABadEscape` | scripts/ci-trace.py:72-101 | a literal ends in the uncaught exception if and only if reading it character by character comes to such an escape before its closing quote |
| `StraceErrors.BadLiteral` | scripts/ci-trace.py:83-96 | a concrete literal, of a backslash before an 8, ends in the uncaught exception |
| `StraceErrors.SplitFails` | scripts/ci-trace.py:104-132 | splitting the text of a call fails with an error if and only if the splitter comes to a literal that cannot be read with that error |
| `StraceErrors.SplitRaises` | scripts/ci-trace.py:104-132 | splitting the text of a call raises the uncaught exception if and only if the splitter comes to a literal with a bad escape |
| `StraceErrors.CallRaises` | scripts/ci-trace.py:216-258 | a call raises the uncaught exception if and only if its text holds a bad escape, whatever the call and the directory: an argument that was split off is read again without error |
| `StraceErrors.TheFirstErrorEndsTheReplay` | scripts/ci-trace.py:181-258 | the replay fails if and only if a completed call does, with the error of the first that does |
| `StraceErrors.WhatRaises` | scripts/ci-trace.py:385-422 | the check ends in the uncaught exception if and only if the first call that fails holds a bad escape |
| `StraceErrors.ABadEscapeRaises` | scripts/ci-trace.py:385-422 | a concrete trace of one line, with a backslash before an 8 in a literal, ends the check in the exception, whatever the checkout |
| `TraceCheck.ToTracked` | scripts/ci-trace.py:267-283 | the loop records, for each tracked file, exactly the calls that named it and the executables that made them, by last component or as unknown |
| `TraceCheck.Check` | scripts/ci-trace.py:385-422 | the check decision: the exception a malformed escape raises (exactly when, see `StraceErrors.WhatRaises`), an error, a pass, or the undeclared files |
| `TraceCheck.SameFiles` | scripts/ci-trace.py:385-422 | the tracked files reported are exactly those named by an undeclared call, each once |
| `TraceCheck.PassMeansDeclared` | scripts/ci-trace.py:385-422 | a trace that passes names no tracked file its gate did not declare, for any call of any process resolved by the operating system's view |
| `PhraseScan.SplitUnlines` | scripts/withdrawn-claim-scan.py:57-61 | lines written out and split again are the same lines |
| `PhraseScan.Normalise` | scripts/withdrawn-claim-scan.py:57-79 | one pass builds the joined text and its parallel line map |
| `PhraseScan.NumberIsTheLine` | scripts/withdrawn-claim-scan.py:57-79 | the line map is as long as the text, and a character is numbered by the line its piece came from |
| `PhraseScan.Numbers` | scripts/withdrawn-claim-scan.py:57-79 | the line map is as long as the text and never decreases |
| `PhraseScan.Scan` | scripts/withdrawn-claim-scan.py:105-132 | the find loop prints exactly the lines on which some occurrence of some phrase starts, overlapping ones included, each once |
| `PhraseScan.WrapInsensitive` | scripts/withdrawn-claim-scan.py:57-79 | breaking a line at one space, with any indentation and at most one added marker, leaves the joined text unchanged if and only if the break is safe: the marker cut takes exactly the added marker |
| `PhraseScan.WrappedTextsScanAlike` | scripts/withdrawn-claim-scan.py:57-79 | two files that differ in one safe break have one joined text, and a line of the broken file is one the scan prints if and only if a phrase starts in the unbroken file on that line before the break, or on the line above it after the break |
| `PhraseScan.AGluedMarkerIsNotSafe` | scripts/withdrawn-claim-scan.py:57-79 | a concrete line broken before a word that begins with a slash, behind the marker //, joins to another text |
| `CredentialForms.RowsAreInjective` | scripts/bind-credential.py:194-197 | a text of key=value rows without newlines reads back as one list of rows |
| `CredentialForms.CanonicalIsInjective` | scripts/bind-credential.py:194-197 | one canonical text has one kind, one subject and one list of rows |
| `CredentialForms.EndpointsShareARow` | scripts/bind-credential.py:200-202 | two endpoints have one row if and only if they are equal but for whitespace around, slashes at the end and the case of ASCII letters, with no endpoint, a blank one and the name `aws` alike |
| `CredentialForms.DestinationFormIsInjective` | scripts/bind-credential.py:210-251 | a destination's canonical text tells its UID and every field of its route apart, the endpoint up to the spellings of one row |
| `CredentialForms.RetentionFormIsInjective` | scripts/bind-credential.py:253-255 | a retention policy's canonical text tells its scope apart too |
| `CredentialForms.LocationFormIsInjective` | scripts/bind-credential.py:297-318 | two locations have one canonical text exactly when they have one scheme and the same dialled S3 route whatever the prefix, the same gs bucket, or the same az account and container |
| `CredentialForms.KindsAreTellable` | scripts/bind-credential.py:194-318 | two canonical texts of different kinds are never the same, the Kafka form included, which has no kind line |
| `CredentialForms.FormsAreTellable` | scripts/bind-credential.py:194-318 | over fields without newlines, two objects or locations of any kinds have one canonical text if and only if they are of one kind and everything that kind's form keeps is the same |
| `CredentialForms.KafkaForm` | scripts/bind-credential.py:258-286 | the fields read branch by branch, and the text put together from them line by line, are the canonical rows of the connection behind the header |
| `CredentialForms.KafkaFormIsInjective` | scripts/bind-credential.py:258-286 | over fields without newlines, two Kafka connections have one canonical text exactly when their UID and every row are the same |
| `CredentialForms.ConnectionsAreTellable` | scripts/bind-credential.py:258-286 | over fields without newlines, servers without commas and CA names without slashes, two connections have one canonical text if and only if UID, server set (no server and one empty one alike), effective mode, username and TLS, CA reference and registry are the same |
| `CredentialForms.SharedReferencesHaveSlashes` | scripts/bind-credential.py:271-278 | a CA reference has the same row as another reference if and only if its name or its key holds a slash |
| `CredentialForms.AdmittedReferencesAreTold` | charts/logweir/crds/kafkaclusters.yaml:117-152 | a CA reference whose name and key the schema of KafkaCluster admits has no slash and shares its row with no other reference |
| `CredentialForms.BootstrapIsTheSet` | scripts/bind-credential.py:258-286 | the bootstrap row depends on the set of stripped servers only, so on neither their order nor repeats; without commas inside servers it is the same exactly when the sets are, no server and one empty server counting as the same |
| `CredentialForms.ManyServersCollide` | scripts/bind-credential.py:258-286 | every set of two or more servers has the same bootstrap row as the one server that is that row |
| `CredentialForms.SharedRowsAreAmbiguous` | scripts/bind-credential.py:258-286 | a set of stripped servers shares its bootstrap row with another such set if and only if it is not exactly one server, or is one that is empty or is two stripped texts in order around a comma |
| `CredentialForms.StrippedSetsAreServers` | scripts/bind-credential.py:258-286 | the server sets of connections are exactly the sets of stripped texts, so the condition on shared rows is about the inputs the code can receive |
| `BindGuard.Inventory` | scripts/bind-credential.py:371-386 | the nested loops list every listed object that names the Secret |
| `BindGuard.InventoryHolds` | scripts/bind-credential.py:371-386 | a reference is in the inventory exactly when a listed item of a scanned kind names the Secret |
| `BindGuard.Kubectl.PatchSecret` | scripts/bind-credential.py:362-368 | the patch changes the Secret only at the version that was read, and only its binding |
| `BindGuard.Plan` | scripts/bind-credential.py:466-542 | the first guard that fails decides; the plan otherwise carries the binding computed from the object's UID and spec |
| `BindGuard.PlannedIffGuarded` | scripts/bind-credential.py:389-542 | a write is planned exactly when every guard holds: in object mode the object names the Secret, no other inventoried object does, published equals computed and no prior binding exists; in location mode only inline references at one bucket name it |
| `BindGuard.Run` | scripts/bind-credential.py:578-607 | main plans once and patches at most once; its exit code, the writes and the cluster it leaves are those of the outcome, and a patch changes only the binding and version of the one Secret |
| `BindGuard.WritesAreGuarded` | scripts/bind-credential.py:578-607 | every run writes at most once, only the computed binding, only to the named Secret, only under the guards |
| `BindGuard.SecondRunIsNoWrite` | scripts/bind-credential.py:545-607 | in both modes, a second run with no other client between writes nothing; it succeeds, finding the binding the first wrote, if and only if neither the UID (or the word location) nor the digest has a comma or a space |
| `LinkageWalk.ReverseEdges` | scripts/reaper-linkage-walk.py:55-59 | the reverse dict holds, for each workspace member, exactly the members that list it as a dependency |
| `LinkageWalk.Visit` | scripts/reaper-linkage-walk.py:65-68 | the inner loop sees every parent once and queues exactly the new ones |
| `LinkageWalk.Walk` | scripts/reaper-linkage-walk.py:43-71 | the worklist terminates and prints, sorted, exactly the workspace members other than the target from which the target is reachable over one or more dependency edges, cycles included |

## Left out

- The shape layers, JSON parsing, command lines, file reading and every printed line: input, output and prose. A refusal is modelled by the name of its arm, not by its words.
- Signatures, keys and SHA-256: calls into code that is not modelled. A digest is an argument, and injectivity is stated of the canonical bytes.
- The self-attestation arm after the scorecard's arms (`docs/verify_scorecard.py:6440-6480`): it needs the verifying key.
- JSON values the shape layer of the receipt does not type: a record count is an integer here, a manifest key a text or absent, and topics are texts.
- ReceiptTheorems.CountsMayBeNegative: says nothing of a count that is not an integer, because the model's counts are integers.
- Receipt instants: the two instants of the consumer-positions block are held as the nanoseconds `_rfc3339_ns` reads.
- Text that is not Unicode scalar values: a Dafny character is never a surrogate, so undecodable bytes do not occur in texts; paths of the trace are kept as bytes.
- StraceLexer.CString: digits and hexadecimal digits are ASCII, where Python's `isdigit` and `int(text, 16)` also accept other scripts' decimal digits.
- StraceEvents.Events: the pid and the digits of a line are ASCII, where the pattern's `\d` accepts other decimal digits.
- PosixPath.NormPathIsIdempotent: states what is used of `os.path`; symbolic links are not part of this model.
- TraceCheck.Check: the tracked, declared and present files are arguments; git, strace and the canary are not part of this model.
- PhraseScan.Scan: lower-casing is of ASCII letters, which keeps the length of a text as the script assumes of `str.lower`.
- BindGuard.Run: the cluster is read as one snapshot and one other client may change Secrets before the patch; failed reads, usage errors and the transport of `kubectl` are not modelled.
- BindGuard.Inventory: the Secrets an item names, and its URL, are given; the paths into each kind's spec are not followed.
- CredentialForms.SharedReferencesHaveSlashes: an absent name or key, which the code reads as the text None, is not a reference of the model.
- LinkageWalk.Walk: the package list is an argument; `cargo metadata` is not part of this model.
- `_catalog_point_problem` and the other payload types (`docs/verify_scorecard.py:5341-5370`): they would add one-branch members only.
- The Rust readers the arms mirror, the console, the live harnesses and the other scripts: not modelled, so no claim about agreement between readers is made.
