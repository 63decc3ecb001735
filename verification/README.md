# A model of tcslog's segmented log

tcslog keeps a log of records in a directory of *segment files*. This project models the whole system and
proves what it is for:

* the **writer** (`LogWrite`), which encodes records into a byte stream, cuts the stream into data sections of
  exactly `seg_size_max - 53` bytes and stamps each file with its session, its sequence number and the bytes it
  owes the record in progress;
* the **directory**, as files appear, grow and go away under the writer, any of which may fail;
* the **damage** a directory may suffer before it is read: files deleted, made unreadable, or cut anywhere;
* the **reader** (`LogRead` and its iterator), which walks the surviving files, crosses from one into the next
  only if sequence, `remaining` and fullness agree, hands files back, resynchronizes, and sometimes rebuilds a
  record whose header was lost;
* the clock files are named from, the identifiers and names themselves, the header codec and the calendar.

## How the parts fit

| file | what it holds |
|---|---|
| `Bytes`, `Format`, `Header`, `Names`, `Calendar`, `Clock` | the codecs, identifiers, dates, and the `Clock` class |
| `ReadSpec` | the reader as functions of its state, one per method of `tcslog/src/read.rs` |
| `LogRead`, `LogReadIter` | the reader in the source's own form: classes with the source's fields and loops, each method proved to compute the function of the same name |
| `ReadEnds`, `ReadAccounts`, `Splices`, `Overlooked` | what holds of the reader whatever bytes the files contain |
| `Discrepancies` | where the reader and its documentation differ: exactly when, and at which input |
| `Invention` | the one damage that makes the reader hand over a record no one wrote |
| `Layout`, `SessionLayout` | the log a writer leaves: epochs, files, their headers and data |
| `Damage` | a log, the directory found, and what survives in it |
| `Standing`, `Filling`, `RecordTruth`, `ReadTruth` | the reader's state tied to the log it reads, step by step |
| `ReadTheorems`, `LossCounts`, `RoundTrip` | whole runs of the reader over damaged and undamaged logs |
| `Reach`, `Course`, `Exactness`, `ExactReading` | exactly what each read gives, and where it leaves the reader, over any damaged log: how far a record can be reached, what loss is reported, which headers are recovered |
| `LogSteps`, `DirSteps`, `History`, `Writing` | what each step of the writer does to the log and the directory |
| `Custody` | files taken away by `send`: what was handed over, together with what is left, is the log as it was |
| `Directory`, `LogWrite` | the directory and the writer as classes |
| `Handing` | which files of the log were not handed over, counted against the failures to flush |
| `Ledger`, `Runs` | the account of a run: what was asked, what was answered, what the log owes to both; and the run itself |
| `System`, `Delivery`, `EndToEnd` | writer, damage and reader together, as theorems and as a program over the classes |

A *log* is a sequence of epochs and a sequence of files. An epoch is a stretch of a session written without an
abandoned write; a session without faults is one epoch. The directory carries the log it came from as ghost
state, and every method of `LogWrite` keeps the two in step whatever fails: sends, file creations, header and
data writes that leave any part of their bytes behind, `record_complete`. Faults are arbitrary choices of the
`Directory` class, which counts them, so that a call can be proved to fail only when something under it did.
Whoever files are handed to leaves them (`Keeps`), takes away none but the one handed over (`Takes`, as
`WriteCallbacks::send` documents), or takes any (`Meddles`); a hand-over records what was there then. What one
`read` finds is an `Attempt`, which does not depend on the caller's buffer; `ReadSpec.Clip` says what is reported
into a buffer of a given size.

What a damaged log reads as is stated twice. `ReadTheorems` says what never happens and what must come back.
`Course.Next` says, of the log and its damage alone and without the reader's state, exactly what each read gives and
where it stands afterwards; `Course.ReadIsNext` proves `ReadSpec.Read` to be that, and `ExactReading` draws the
consequences for a caller: of each record whose first byte is there, exactly what can be reached without a gap; a loss
counted as the files missing; a full buffer told whatever became of the rest; a lost header recovered if and only if the
files around it determine it. An epoch carries the minor version of its files, so all of this holds of version 1.0 logs,
whose data headers are two bytes shorter, as of current ones.

The writer's account of `send` is `Writing.HandedOn`: of the files a call is done with, each was handed over whole, once,
in order, but for as many as there were failures to flush, after which the source does not call `send`, and for files
in which nothing was written. Every method keeps it on success and on error, so a run that ends by dropping the writer
leaves no file behind without a counted failure to flush it.

Four places where the code and its documentation differ; the model follows the code:

* `read` documents one `SessionEnd` at each session boundary (`tcslog/src/read.rs:287-375`). With records of
  fixed length and an empty buffer the boundary is met while skipping, and its report is dropped.
  `ReadAccounts.FilesAndSessionsAccounted` proves every boundary reported if and only if no read with an empty
  buffer starts where an exhausted file of fixed-length records is followed by the next session
  (`ReadAccounts.HidesEnd`, a condition on the reader's fields and the pending files), and
  `Discrepancies.EmptyBufferHidesEnd` gives a directory where one is.
* A reported loss is documented to give up the open file, unless the read overflowed
  (`tcslog/src/read.rs:277-285`). A loss ahead of a session's first file keeps it open, at the record found
  (`tcslog/src/read.rs:322-326`). `Discrepancies.LossKeepsFile` proves this the only case, and
  `Discrepancies.LateSessionStaysOpen` gives a directory.
* A segment file the reader cannot use is documented to be one it does not have (`tcslog/src/read.rs:723-727`). It is,
  but at the end: `read` takes a log to have ended when no name is left (`tcslog/src/read.rs:293-296`), so a file that
  cannot be used, named after all that can, makes it report a truncation before the end.
  `Overlooked.UnusableOverlooked` proves, for any contents, that such files change nothing unless the last file is one
  and the log without them ends with a file open, and then exactly that; `Discrepancies.EmptyFileReported` gives a
  directory.
* A new file's name is documented to be larger than every earlier one of its writer
  (`tcslog/src/write.rs:852-859`). The loop only avoids names still present: once `send` has taken a file away, its
  name is free, and is given out again if the clock has not moved on; and a later writer whose real-time clock reads
  earlier gives out earlier names. `Custody.ReunitedKept` proves that what was handed over, together with what is
  left, holds everything if every name was later than all before it, `Custody.NamesMustRise` that it cannot be in
  step with the log otherwise, and `Custody.OneNameLosesOne` gives a log of two files under one name.

The recovery of a record whose header was lost (`tcslog/src/read.rs:1157-1179`) is sound under all damage but one: a
write failed and yet filled its file, and the file opened after it is gone. `Invention.RecordInvented` gives such a
directory and a record the reader returns that no one wrote; the theorems on damaged logs ask that this is not so
(`Damage.World.ResumptionsHeld`), which holds of any damage to a log without an abandoned write
(`System.FairlyAnyhow`) and of whatever the writer itself leaves.

It is also exact: `Reach.HintSettles` proves that a length is settled if and only if the missing file is one, it
ended with a data header, and the record before that breaks off in its payload (`Reach.HeaderGone`).

Losses are counted at crossings and ahead of a session's first file. Files discarded while resynchronizing are
not checked for gaps (`tcslog/src/read.rs:699-707`), so `LossCounts` and `ExactReading` prove that a gap met by a
crossing is counted exactly, and that no run counts more than is gone.

The hypotheses of the theorems on whole logs are what the classes establish: `LogWrite` keeps `Settled` and
`Onward` through every call, `Runs.Run` keeps `Ledger.InStep` through any calls, failed or not, and
`EndToEnd.WriteThenRead` puts them together from an empty directory to the last record read: every record
acknowledged comes back with the metadata it was given, nothing comes back that was not asked for, no call fails
of itself, and every file that holds data was handed over unless a failure to flush it was counted.

## Model

| member | source | states |
|---|---|---|
| Header.HeaderRoundTrip | tcslog/src/header.rs:132-194 | decoding an encoded header gives it back, whatever follows, for every header with a readable minor version and a valid format |
| Header.HeaderAccepted | tcslog/src/header.rs:171-194 | the bytes accepted are exactly the encodings of readable headers, any patch digit and, for formats that have none, any argument |
| Header.VersionRefused | tcslog/src/header.rs:287-300 | the version is named as the fault if and only if the magic is right and the digits are not those of a version this build reads |
| Header.HeaderCanonical | tcslog/src/header.rs:171-194 | accepted header bytes re-encode to themselves but for the patch digit and the argument of formats that have none |
| Format.Format.FromTag | tcslog/src/format.rs:133-140 | a tag and argument are accepted exactly when they name a valid format, and they name it back |
| Format.DataHeaderRoundTrip | tcslog/src/read.rs:570-611 | a data header of any readable version decodes to the length and metadata it was built from |
| Names.Parse | tcslog/src/segid.rs:96-118 | the digit loop accepts exactly the canonical 19-character texts, and its value renders as the text again |
| Names.TextSpells | tcslog/src/segid.rs:124-134 | what is displayed is canonical and spells the identifier |
| Names.TextOrder | tcslog/src/segid.rs:124-134 | text order is numeric order, both ways |
| Names.IdFromName | tcslog/src/util.rs:123-133 | a name yields an identifier exactly when it is one `build_name` makes, and then that one |
| Names.NameInjective | tcslog/src/util.rs:95-108 | no two identifiers share a file name |
| Names.ScanSegmentIds | tcslog/src/util.rs:157-173 | a listing in any order yields exactly the log's identifiers, strictly increasing |
| Calendar.DateFollowsDate | tcslog/src/util.rs:253-266 | the conversion starts at 1970-01-01, yields a valid date, and takes each day to its successor under the leap-year rule |
| Calendar.CountOfDate | tcslog/src/util.rs:253-266 | counting the days of the date gives the day back |
| Calendar.DateOfCount | tcslog/src/util.rs:253-266 | every valid date since the epoch is the conversion of its day count |
| Calendar.TimestampRenders | tcslog/src/util.rs:221-238 | every 64-bit timestamp renders in exactly 30 characters of the UTC date-time form, and the rendering stands for that timestamp |
| Clock.Clock.Anchor | tcslog/src/write.rs:1352-1358 | a clock at the epoch, or past what a timestamp holds, is refused, and any other is paired as read |
| Clock.Clock.Now | tcslog/src/write.rs:1395-1397 | readings never go back, and overflow is an error |
| Clock.Clock.AdvancePast | tcslog/src/write.rs:1442-1452 | the clock then reads past the identifier, moved once and no further than needed; it fails if and only if no timestamp is left |
| Clock.ResolutionDoubles | tcslog/src/write.rs:1259-1265 | the resolution is unchanged after one collision and has doubled once for each later one, saturating |
| Clock.BoundIsLogarithm | tcslog/src/write.rs:927-947 | the collision bound is max(1, ceil(log2(T / r))): naps have grown to T by then and not before |
| Clock.BoundNotReached | tcslog/src/write.rs:927-947 | while naps are shorter than T, fewer collisions than the bound have happened, and the resolution is below T |
| LogWrite.LogWrite.CreateUniqueFile | tcslog/src/write.rs:927-947 | the retry loop ends within the collision bound, leaves the resolution as it was or doubled but below T, reports each change once, and the name found is later than every file present; it fails only when creation or the clock does |
| LogWrite.LogWrite.CreateSegment | tcslog/src/write.rs:818-850 | the new file follows in the log with exactly the header the log prescribes; on an error nothing changed, or a file with the part of that header that was written is there under the latest name, and there is no current file |
| LogWrite.LogWrite.StampHeader | tcslog/src/write.rs:818-850 | a header written in part is no file of the session; written whole, it is the log's next file even if an error was reported; either way the directory is given exactly |
| LogWrite.LogWrite.StartSession | tcslog/src/write.rs:794-799 | a session begins with sequence and record count zero, and a whole log stays whole |
| LogWrite.LogWrite.CloseAndSend | tcslog/src/write.rs:1144-1156 | the current file is flushed and handed over once, with all it holds, even if `send` then fails; if it cannot be flushed, an error says so and nothing is handed over; nothing is lost by it unless `send` takes other files |
| LogWrite.LogWrite.Roll | tcslog/src/write.rs:1122-1126 | the full file is handed over whole and continued by the next of its epoch, which owes what is left of the record; on an error the hand-over is accounted for and no file is current |
| LogWrite.LogWrite.NextSegment | tcslog/src/write.rs:1122-1180 | the next file follows in the log, continuing or resuming, or a file with nothing of the log in it may be left and none is current; the account of what is handed over is unchanged |
| LogWrite.LogWrite.AbandonAfterError | tcslog/src/write.rs:1173-1180 | exactly the file given up is handed over, with all it holds, unless it could not be flushed, which is then counted; the session carries on in a file that owes nothing, next in sequence, or there is no current file, and the error says why |
| LogWrite.LogWrite.Append | tcslog/src/write.rs:1090-1118 | whatever part of a chunk gets written is the next bytes of the log's stream, and all of it if no error is reported |
| LogWrite.LogWrite.RollIfFull | tcslog/src/write.rs:636-642 | a record never begins at the end of a full file |
| LogWrite.LogWrite.WriteOnce | tcslog/src/write.rs:1090-1118 | one turn of the loop writes at least a byte, in the current file or its continuation, or gives up the file and resumes |
| Handing.CallStrands | tcslog/src/write.rs:1128-1180 | a call leaves no more files without a hand-over than there were failures to flush in it |
| Handing.NoneStranded | tcslog/src/write.rs:111-155 | the count is zero if and only if every file of the log that holds data and was not cleared was handed over whole |
| LogWrite.LogWrite.PutChunk | tcslog/src/write.rs:1090-1118 | a chunk is appended whole and accounted for, or any part of it is on disk, the file is given up and handed over, and the session resumes; no file is current only if that failed too |
| LogWrite.LogWrite.WriteBytes | tcslog/src/write.rs:1090-1118 | the bytes end up in consecutive files, all but the last full, each finished one handed over once, whole, in order; on an error every file finished or given up was still handed over, but for one per failure to flush |
| LogWrite.LogWrite.BuildDataHeader | tcslog/src/write.rs:1032-1056 | the header built is that of a valid record, numbered next, stamped within the call |
| LogWrite.LogWrite.EnsureSession | tcslog/src/write.rs:617-634 | a session is started when there is none or its record count is exhausted, and only then |
| LogWrite.LogWrite.MakeRoom | tcslog/src/write.rs:617-642 | a record begins where there is room for a byte, never at the end of a full file |
| LogWrite.LogWrite.PutRecord | tcslog/src/write.rs:644-657 | the record alone is added to the log, at the end of its session, numbered next |
| LogWrite.LogWrite.Write | tcslog/src/write.rs:605-657 | `Ok` means the record is written out to its last byte, at its session's end, numbered next and stamped within the call, reported complete once, and every file finished on the way was handed over once, whole, in order; an error adds at most this record, and every file finished or given up was handed over but for one per failure to flush; a refused payload changes nothing; a payload that fits fails only as an operation failed or no timestamp is left, and the error names which; the log only grows, and nothing kept is lost |
| LogWrite.LogWrite.Clear | tcslog/src/write.rs:712-720 | `Ok` leaves an empty directory and an empty log; nothing is handed over; an error means enumerating or removing failed, and that only the oldest files are gone, all others left as they were |
| LogWrite.LogWrite.SendExisting | tcslog/src/write.rs:735-778 | every file there is handed over once, oldest first, as it was unless an earlier `send` took it away; after a failure those handed over are the oldest; what is left is what none of them took; the latest name there was is reported, even of files `send` took away |
| LogWrite.AllThere | tcslog/src/write.rs:735-778 | unless `send` takes files it was not handed, each is there, as it was, when its turn comes |
| LogWrite.LogWrite.Open | tcslog/src/write.rs:401-464 | the clock is set past every file present whatever the real-time clock reads, every file present is handed over first, and a new session begins; bad arguments are refused untouched; with none, opening fails only as an operation failed or the latest name or reading leaves no timestamp, and the error names which |
| LogWrite.LogWrite.Close | tcslog/src/write.rs:1192-1202 | the current file is handed over once, whole, flushed or not, if and only if it holds data |
| LogSteps.SessionOpened | tcslog/src/write.rs:794-850 | a session's first file is numbered zero, named as its session, and owes nothing |
| LogSteps.Rolled | tcslog/src/write.rs:1122-1126 | a continuing file's `remaining` is exactly the unwritten bytes of the record in progress |
| LogSteps.Abandoned | tcslog/src/write.rs:1173-1180 | a resuming file starts on a fresh record, next in sequence |
| LogSteps.Wrote | tcslog/src/write.rs:1090-1118 | writing extends the last file by the next bytes of the stream and changes no other |
| LogSteps.RecordBegun | tcslog/src/write.rs:644-646 | beginning a record changes nothing on disk and adds its encoding to what is owed |
| LogSteps.RecordNumbered | tcslog/src/write.rs:1044-1056 | a record counted next keeps every session numbered 1, 2, 3, ... |
| LogSteps.ResumptionNumbered | tcslog/src/write.rs:1173-1180 | numbering goes on over an abandoned write |
| SessionLayout.SectionsJoin | tcslog/src/write.rs:1090-1118 | the data sections of an epoch join into the encodings of its records, as far as written |
| SessionLayout.HeaderTells | tcslog/src/write.rs:818-850 | session, sequence and `remaining` of every file: the first file's name, the files before it, zero on a record boundary and else the rest of the record however long |
| SessionLayout.FullButTheLast | tcslog/src/write.rs:1090-1126 | every file but a session's last is exactly `seg_size_max` bytes |
| DirSteps.FileJoins | tcslog/src/write.rs:818-850 | a file named after all others keeps the directory in step with the log, sessions told apart |
| DirSteps.FilesTaken | tcslog/src/write.rs:163-163 | so does taking files away |
| DirSteps.FileSent | tcslog/src/write.rs:111-163 | a file handed over is not lost, whether it is then taken away or not |
| DirSteps.OldestGone | tcslog/src/write.rs:712-720 | a clear that fails half way has removed no file before an older one |
| Custody.ReunitedSettled | tcslog/src/write.rs:111-155 | what was handed over and what is left, in one place, are in step with the log if names rise |
| Custody.ReunitedKept | tcslog/src/write.rs:111-155 | and then nothing is lost, and a whole log is whole again |
| Custody.NamesMustRise | tcslog/src/write.rs:852-859 | a directory of all the files is in step with the log only if every name is later than all before it |
| Custody.OneNameLosesOne | tcslog/src/write.rs:927-947 | two files under one name: both records written out, and one file left of them |
| History.OnDiskForGood | tcslog/src/write.rs:605-657 | a record written out stays written out, and the same, however the log grows |
| Ledger.OpenStep | tcslog/src/write.rs:401-464 | opening a writer keeps the account: nothing acknowledged or attempted changes, and with no failure so far a session is added |
| Ledger.WriteStep | tcslog/src/write.rs:605-657 | writing keeps the account: an acknowledged record is on disk behind all those before it, with the metadata answered, a failed one adds at most itself to what was attempted |
| Ledger.ClearStep | tcslog/src/write.rs:712-720 | clearing keeps the account: on success nothing is owed, on failure nothing is but what comes after |
| Runs.Run | tcslog/src/write.rs:401-720 | whatever fails, over any run and any `send`: a call is refused exactly by what it asks, and failures are no more than the operations that failed under them, unless timestamps ran out; every record acknowledged since the last attempted clear was written out to its last byte, with the metadata answered, in the order of the calls; the log's records are ones asked for, in that order; within a session they are numbered 1, 2, 3, ..., and while a writer is in use times do not go back; with no failure the log is whole and holds exactly the records acknowledged, session by session; names present sort in creation order, and so by session and sequence; unless `send` takes files it was not handed, nothing complete is lost but to a clear; the last writer dropped, every file of the log that holds data and no clear has begun to remove was handed over, but for at most one per counted failure to flush |
| LogRead.LogRead.Open | tcslog/src/read.rs:211-253 | a fresh reader lists exactly the log's files, oldest first, or reports that there are none |
| LogRead.LogRead.OpenNext | tcslog/src/read.rs:739-779 | the loop computes `ReadSpec.OpenNext` |
| LogRead.LogRead.Cross | tcslog/src/read.rs:862-992 | crossing computes `ReadSpec.Cross`, about which the theorems are |
| LogRead.LogRead.Fill | tcslog/src/read.rs:1035-1065 | the loop computes `ReadSpec.Fill` and leaves its bytes at the front of the destination, the rest untouched |
| LogRead.LogRead.Skip | tcslog/src/read.rs:1088-1110 | skipping k bytes succeeds, fails and moves exactly as filling k bytes does |
| LogRead.LogRead.ReadDataHeader | tcslog/src/read.rs:570-650 | reading a data header, of the length its file's version has, computes `ReadSpec.ReadDataHeader` |
| LogRead.LogRead.FindRecordStart | tcslog/src/read.rs:668-719 | the resynchronization loop computes `ReadSpec.FindRecordStart` |
| LogRead.LogRead.Read | tcslog/src/read.rs:287-375 | `read` returns what `ReadSpec.Read` finds, clipped to the buffer; the buffer holds what was delivered and is otherwise untouched |
| LogRead.LogRead.ReadPayload | tcslog/src/read.rs:351-375 | filling the buffer and skipping the rest is one fill of the whole payload, clipped |
| LogRead.ReportTold | tcslog/src/read.rs:361-372 | result and buffer determine the outcome, and a count reported is the number of bytes delivered |
| LogReadIter.LogReadIter.Next | tcslog/src/read.rs:1205-1233 | the loop ends and hands over the first item still to come, leaving the others |
| ReadEnds.FillSplit | tcslog/src/read.rs:1035-1110 | reading a + b bytes is reading a and then b: same faults, same state |
| ReadEnds.ReadPays | tcslog/src/read.rs:287-375 | every read short of the end uses up potential, though files are pushed back |
| ReadEnds.ReadingEnds | tcslog/src/read.rs:287-375 | for any contents and any buffers, the end is reported after at most data bytes + 3 x files reads, and ever after |
| ReadAccounts.FilesAndSessionsAccounted | tcslog/src/read.rs:739-779 | for any contents and buffers every usable file is counted and its header kept once, in order; session ends are reported once per change if and only if no read with an empty buffer starts at the end of an exhausted fixed-length file with the next session following, and never more often |
| ReadAccounts.ReadMeetsEnd | tcslog/src/read.rs:1088-1110 | a read's session end is dropped exactly when the buffer is empty and the open file is exhausted, of fixed-length records, with the next session following |
| Discrepancies.EmptyBufferHidesEnd | tcslog/src/read.rs:351-375 | a directory of two sessions where empty buffers hide the end between them |
| Discrepancies.LossKeepsFile | tcslog/src/read.rs:322-326 | a reported loss leaves a file open if and only if no file was open, files are missing ahead of the session's first, and a record starts in what is left of it |
| Discrepancies.LateSessionStaysOpen | tcslog/src/read.rs:322-326 | a directory where a loss of three files is reported and the file stays open |
| Overlooked.UnusableOverlooked | tcslog/src/read.rs:723-727 | for any contents, files that cannot be used change nothing read, unless the last file is one and the log without them ends with a file open; then one truncation more is reported, just before the end |
| Discrepancies.EmptyFileReported | tcslog/src/read.rs:293-296 | a directory where an empty last file is reported as a loss, and its absence is not |
| Splices.WholeIsSpliced | tcslog/src/read.rs:862-992 | for any contents, a record is returned whole across files only if each comes next in sequence in its session after a full one and declares exactly what is left of that record |
| Reach.FillReaches | tcslog/src/read.rs:1035-1065 | filling gives exactly the bytes that can be reached without a gap and stops at the first gap with the number of files missing there |
| Reach.HintSettles | tcslog/src/read.rs:1157-1179 | a length is settled if and only if one file is missing, it ended with a data header, and the record before breaks off in its payload; and it is that record's |
| Course.ReadIsNext | tcslog/src/read.rs:287-375 | each read gives exactly what `Course.Next` says of the log and its damage, and leaves the reader where that says |
| Exactness.AllRead | tcslog/src/read.rs:287-375 | every record whose first byte is there, and every one that lost only its data header after one that was read, is read in a run |
| Exactness.OnlyRead | tcslog/src/read.rs:287-375 | and no other is |
| Exactness.ReadsRise | tcslog/src/read.rs:287-375 | later reads are of later records |
| ExactReading.WhatIsRead | tcslog/src/read.rs:287-375 | over any damage and buffers each read gives of one record exactly what can be reached into its buffer, with the loss where it breaks off, or delivers nothing; in written order; and exactly the records above |
| ExactReading.ReachIsHeld | tcslog/src/read.rs:862-992 | what can be reached is what is there of the epoch without a gap |
| ExactReading.InReachSurvives | tcslog/src/read.rs:862-992 | a record whose first byte is there is in reach if and only if all of it survives |
| ExactReading.LostHeaderRegained | tcslog/src/read.rs:1157-1179 | one file missing that ended with exactly a data header, a whole file before it that the record in progress ran off: the next record is returned, as far as its buffer goes if its payload survives, however many files it spans |
| ExactReading.LossIsCounted | tcslog/src/read.rs:957-973 | a read that runs off file f in a data header or a payload and next meets surviving file x of the session finds `Truncated(x - f - 1)`, and the caller is told so with what was delivered, unless the buffer was full before |
| ExactReading.LossAtEdge | tcslog/src/read.rs:957-973 | so does one that starts where the file ends |
| ExactReading.FullBufferTold | tcslog/src/read.rs:361-372 | a buffer too small for the record is reported as overflow, with the front of the payload, if and only if it could be filled, whatever became of the rest |
| ExactReading.IteratorYieldsPieces | tcslog/src/read.rs:1205-1233 | the iterator over a damaged log yields exactly the records and fronts that can be reached, marked as cut exactly if they are |
| ExactReading.OldRecordsRead | tcslog/src/read.rs:584-609 | a record of a version 1.0 file, length, timestamp, four-byte count, payload, reads as that payload and metadata, its header split over files or not |
| Damage.CutFileOpens | tcslog/src/read.rs:800-823 | a file cut anywhere past its header opens as what it was, and only then |
| Standing.CrossIn | tcslog/src/read.rs:862-992 | inside a record, a crossing that succeeds is into the record's true continuation, and one that fails leaves a true recovery hint |
| Standing.CrossSucceeds | tcslog/src/read.rs:862-992 | the true continuation, if present, is accepted |
| Filling.FillIn | tcslog/src/read.rs:1035-1065 | the bytes filled are the record's own, each from a surviving file, and all of them if the record survives |
| Filling.FillFresh | tcslog/src/read.rs:1035-1065 | asked for the next record, the reader starts at a true record boundary, the next one unless a write was abandoned there |
| ReadTruth.LostHeaderRecovered | tcslog/src/read.rs:1157-1179 | when the arithmetic settles a length, the missing file ended in exactly that record's data header and the next file starts with its payload, of that length, which is not zero, however far it runs |
| Invention.RecordInvented | tcslog/src/read.rs:1157-1179 | a log of which one file, opened after a failed write that filled its file, is gone: the reader returns whole a record that is not in it |
| ReadTruth.SessionFirst | tcslog/src/read.rs:668-719 | with no file cut and no write abandoned, a search between sessions that finds no loss to report finds a session's first record |
| ReadTruth.ReadTold | tcslog/src/read.rs:287-375 | one read delivers a written record or the front of one, passes over none that survives, and leaves the reader at a true boundary |
| ReadTheorems.NothingInvented | tcslog/src/read.rs:862-992 | under any damage, with or without writer faults, for any buffers: what is returned whole was written, with its metadata; what is cut is the front of a record; in written order, none twice |
| ReadTheorems.ReadsTold | tcslog/src/read.rs:287-375 | the same of each read whatever the buffer, with the metadata it leaves |
| ReadTheorems.EverySurvivorReturned | tcslog/src/read.rs:668-719 | every record all of whose bytes survive is returned, whole or as much as the buffer holds |
| ReadTheorems.WhatComesBack | tcslog/src/read.rs:287-375 | what comes back whole is exactly the survivors, and some that lost nothing but a data header; every survivor comes back, cut only by its buffer |
| ReadTheorems.SilentLossAtTailOnly | tcslog/src/read.rs:923-973 | two records returned with nothing between are adjacent; with no file cut, a record not preceded by all those before it in its session comes after a loss told of within that session; so a session read without one is returned as a prefix |
| LossCounts.CrossingCountsGap | tcslog/src/read.rs:957-973 | a gap met by a crossing is reported as exactly the number of files missing or unusable in it |
| LossCounts.LossesNeverOverstated | tcslog/src/read.rs:767-774 | over a whole run the losses reported never exceed the files actually gone |
| RoundTrip.ReadsBackWhatWasWritten | tcslog/src/read.rs:287-375 | an undamaged log reads back as what was written: every record with its metadata, one session end between sessions, no loss, then the end; small buffers only cut payloads |
| System.NothingAcknowledgedIsLost | tcslog/src/write.rs:1090-1180 | after any writer faults, what reads back whole was written out to its last byte, everything that was and no clear has begun to remove reads back, in order, and nothing that was not attempted |
| System.TidyReadsBack | tcslog/src/write.rs:605-720 | runs in which every call succeeded read back as exactly what they wrote |
| System.IteratorYieldsRecords | tcslog/src/read.rs:1205-1233 | the iterator over such a log yields every record once, in order, cut and marked only if longer than its buffer |
| System.DamageIsContained | tcslog/src/read.rs:862-992 | for every log, every deletion, spoiling and cutting of its files that does not leave a file filled by a failed write without its successor, and any buffers: nothing invented, every survivor returned, in written order, losses not overstated |
| System.DamagedIsWorld | tcslog/src/read.rs:800-823 | such a directory meets the conditions of the theorems on damaged logs |
| System.FairlyAnyhow | tcslog/src/read.rs:1157-1179 | any deletion, spoiling and cutting is such damage if no write was abandoned |
| Delivery.IteratorDelivers | tcslog/src/read.rs:1205-1233 | after any writer faults the iterator yields every acknowledged record with its metadata, in the order of the calls, cut and marked only if longer than its buffer, and nothing that was not asked for |
| EndToEnd.ReadAll | tcslog/src/read.rs:1205-1233 | the iterator loop ends with exactly the items of the run of reads |
| EndToEnd.WriteThenRead | tcslog/src/write.rs:605-720 | a program that opens, writes and clears, whatever fails, then reads what is left and what was handed over: every record acknowledged since the last attempted clear comes back in order with its metadata, and nothing that was not asked for; if no call failed, exactly the records acknowledged; no more files go without a hand-over than failed to be flushed |

## Left out

- Real file handles, paths, seeking, sleeping and the system clocks: a directory is a map
  from identifiers to bytes, and the monotonic clock is an oracle that never goes back. I/O errors while reading,
  which the source returns as `IoError`, are not modelled; a file that cannot be opened or read is one whose bytes
  are not usable.
- Damage that overwrites bytes: the format has no checksum, so nothing is claimed about it beyond termination
  and accounting, which hold for arbitrary contents.
- Sequence numbers at 2^64 - 1: the reader computes `prev + 1` unchecked; the model computes it without bound,
  and the theorems on written logs ask that no session has that many files.
- Several writers open on one directory at once, and files changing while a reader is open.
- Records that further arithmetic could recover, after more than one missing file or in the formats with longer
  headers: the source does not try, and exactly what it does recover is proved.
- `write_str`, `read_str`, accessors such as `current_header` and `last_meta` of the writer, argument checks for
  path delimiters and directories, and the guarantee that the steady state allocates nothing.
- `civil_from_days` is modelled on unbounded integers; its additions cannot overflow for the days a 64-bit
  timestamp reaches.
- `usize` and `u32` saturation in counts that are bounded by a buffer's or a file's length.
- The C interface, the C++ and Python wrappers, `tcslog-gen`, the support programs and packaging.
- EndToEnd.WriteThenRead: says what comes back unless `send` takes files it was not handed; where it takes files, if
  names were given out in order and no clear failed half way; and if no log has 2^64 - 1 files. What comes back of
  a log that files are missing from is the matter of `System.DamageIsContained`.
- When `send` and `record_complete` run relative to each other, and what a flush does below the file: a flush that
  succeeds is recorded as one, nothing more.
