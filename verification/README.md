# Hunk, in Dafny

This project models the stateful and parsing core of Hunk and proves what its code keeps. Eight parts:

- **Streaming history cursors.** A producer cuts a NUL-delimited byte stream into chunks; the cursor reassembles
  fixed-arity records (8 fields for Git, 13 for Jujutsu), queues commits, pauses the producer at 512 and resumes it
  below 256, and serves one reader at a time through abort and close. `HistoryCursor.dfy` is the cursor as a state
  machine whose steps are the atomic stretches of the handlers, `HistorySource.dfy` the object with its mutable fields,
  `HistoryTheorems.dfy` what every run delivers against the batch parser in `HistoryParser.dfy`, `HistoryEndings.dfy`
  how a run ends and what a parked read is told, and `HistoryCommits.dfy` what a decoded commit says of what was printed.
- **Inline editor.** A line buffer edited in place with the document lines each row still presents, a grapheme caret,
  hunk ownership, a one-slot mailbox, and a single-owner opening protocol across awaits (`Graphemes.dfy`, `Edit*.dfy`,
  `Mailbox.dfy`, `EditorProtocol.dfy`).
- **Git status.** Porcelain v2 and worktree listings, and the pool of four workers that inspects sibling worktrees.
- **Vim grammar.** A key-by-key automaton with a saturating count against a reader of whole key streams.
- **Changelog.** Version order against SemVer 2.0.0, series grouping, and nested splitting of text that respects fences.
- **Rendered Markdown geometry.** The line index, note anchors and hunk extents.
- **Markdown tables.** The in-place formatter, its stability, and which rows it keeps.
- **`hunk gh compare`.** Ref validity as what makes `base...head` decodable.

Code that updates state is a class or a method with loops; each method's postcondition ties it to a function, and the
lemmas are about that function, over every input, every run or every schedule. Steps named `Step` or `Next` are the
transition functions; `Run` folds them over any list of events.

Four findings about the code are stated as theorems:

- A Git record that does not parse throws out of the data handler before the parked reader is woken
  (`UncaughtExactlyOnBadRecord`); Jujutsu's handler catches it. With `i18n.logOutputEncoding` set to UTF-16LE, Git puts
  a NUL after every character, and its log does this from the first record on (`WideLogStrandsReader`,
  `WideLogBringsNothing`).
- `groupIntoSeries` keys its buckets by the spelling of `major.minor` but orders them by value, so versions with leading
  zeros can come out of order (`LeadingZeroBreaksOrder`); `FlattenedInOrderExactly` gives the exact condition.
- `formatMarkdownTables` drops the last character of a row without a closing bar (`OpenRowLosesCharacter`), and can then
  take the row for a separator and write back dashes (`DashedRowExists`); `RowKeptExactly` says which rows are kept.
- A document line that lies in two hunks, as when hunks without a new range are all placed at line 1, has no note
  binding in the editor's layout; short of that, no row that holds a line of a hunk ever loses its binding
  (`BindingsKeptExactly`).

`dafny verify dfyconfig.toml` checks the whole project. Every lemma states its induction explicitly, so each carries
`{:induction false}`.

## Model

| member | source | states |
|---|---|---|
| `HistoryTheorems.DeliveredIsBatchParse` | packages/hunk-git/src/history.ts:394-445 | After every run of data, close, read, abort and close-cursor events, commits delivered then queued are the accepted records of the text received, and without a failure they are what the batch parser returns for its whole records: nothing lost, repeated or reordered |
| `HistoryTheorems.ChunkingIsInvisible` | packages/hunk-jj/src/history.ts:369-396 | Two runs that received the same text account for the same commits, however it was cut into chunks and however reads interleaved |
| `HistoryTheorems.DoneIsTheWholeStream` | packages/hunk-git/src/history.ts:471-477 | A page marked done on a cursor nobody closed means the process has exited and everything delivered is the batch parse of the entire output |
| `HistoryTheorems.ParkedReaderIsServed` | packages/hunk-jj/src/history.ts:428-446 | No lost wakeup: at most one waiter, registered exactly while a read is pending, and then the queue is short of its target, the stream is live and the producer is not paused |
| `HistoryTheorems.QueueIsBounded` | packages/hunk-git/src/history.ts:416-419 | In every run in which no data arrives while the producer is paused and no text completes more than k records, the queue never holds more than 511 + k commits, failures and the closing text included |
| `HistoryTheorems.PageIsFull` | packages/hunk-git/src/history.ts:467-480 | A read that parks keeps its clamped target; a page is as long as its target unless the stream is over and the page empties the queue; done exactly when over and empty; a live page leaving under 256 leaves the producer flowing |
| `HistoryTheorems.RunKeeps` | packages/hunk-jj/src/history.ts:359-468 | The full invariant of every reachable cursor, for both backends: accounting of received text, waiters, flow control (paused only with at least 256 queued, or completed, or closed) and completion |
| `HistoryTheorems.UncaughtExactlyOnBadRecord` | packages/hunk-git/src/history.ts:416-419 | An exception escapes a data handler exactly for Git when the output received holds a record that does not parse, and exactly then a parked reader stays registered; Jujutsu always wakes it |
| `HistorySource.WideLogStrandsReader` | packages/hunk-git/src/history.ts:394-419 | Output in a two-byte encoding, which `i18n.logOutputEncoding` may ask of Git, strands a parked reader: a run that parks a read and receives it ends with the exception uncaught and the waiter still registered |
| `HistorySource.WideLogBringsNothing` | packages/hunk-git/src/history.ts:394-419 | However such output is cut into chunks and reads interleave with it, no commit is delivered or queued, and the exception escapes |
| `HistoryTheorems.StreamIsStricterExactlyOnOpenField` | packages/hunk-git/src/history.ts:431-445 | When the process succeeds, the cursor accepts its output if and only if the batch parser does and the stream does not end inside the last field of its last record |
| `HistoryTheorems.CloseVerdict` | packages/hunk-jj/src/history.ts:408-426 | The verdict at process close, in terms of the text received: malformed or escaping on a bad record, else truncated exactly when the text does not end with a whole record, else failed exactly on an unsuccessful exit of an unclosed cursor |
| `HistoryTheorems.BatchAccepts` | packages/hunk-git/src/history.ts:263-268 | Exactly which texts the batch parser accepts, by number of closed fields and the open tail |
| `HistoryTheorems.ConsumeAccounted` | packages/hunk-git/src/history.ts:394-414 | One chunk extends delivered-and-queued by exactly the records it closes, keeps the unfinished record and tail, and errors exactly when a record first fails to parse |
| `HistoryTheorems.AbsorbAgrees` | packages/hunk-git/src/history.ts:396-412 | The field-by-field reassembler queues what parsing the held fields and the new ones together would accept |
| `HistoryTheorems.ParseWholeRecords` | packages/hunk-jj/src/history.ts:128-192 | Given the longest prefix of whole records, the batch parser returns the accepted commits, or an error exactly when a record is bad |
| `HistoryTheorems.WholeRecordsCut` | packages/hunk-git/src/history.ts:433-434 | A stream is its whole records, then the fields of an unfinished record, then the open tail |
| `HistoryEndings.CloseSettles` | packages/hunk-git/src/history.ts:482-487 | In every run of either backend, closing marks the cursor closed, leaves nobody waiting and resolves the read that waited, and changes nothing else |
| `HistoryEndings.ClosedExactly` | packages/hunk-jj/src/history.ts:363-368 | A cursor is closed if and only if close was called or, for Jujutsu, a read was begun aborted, aborted while it waited, or woken, then aborted, and about to wait again |
| `HistoryEndings.GitClosedExactly` | packages/hunk-git/src/history.ts:482-487 | A Git cursor is closed if and only if close was called while the program ran |
| `HistoryEndings.ClosedForGood` | packages/hunk-jj/src/history.ts:363-368 | No event opens a closed cursor again |
| `HistoryEndings.ClosedReaderGetsPage` | packages/hunk-git/src/history.ts:472-477 | A read that goes on from a closed cursor without abort or failure gets a page of its limit or of all that is queued, done if and only if that empties the queue |
| `HistoryEndings.CloseAnswersReader` | packages/hunk-jj/src/history.ts:459-464 | A read parked when the cursor is closed is answered, done, with everything that was queued |
| `HistoryEndings.SpawnFailureSettles` | packages/hunk-git/src/history.ts:426-430 | A spawn failure completes the cursor with that failure and resolves the read that waited, keeping what is queued |
| `HistoryEndings.AbortRejects` | packages/hunk-jj/src/history.ts:439-443 | An abort rejects the read that waited; going on, it throws the abort and frees the cursor |
| `HistoryEndings.ConcurrentReadRefused` | packages/hunk-git/src/history.ts:467-468 | A second read while one is under way is refused and changes nothing |
| `HistoryEndings.ReadThrows` | packages/hunk-git/src/history.ts:472-476 | A read that goes on once the stream has failed throws that very failure unless it was aborted; an aborted one throws the abort or waits; and no other read that goes on throws |
| `HistoryEndings.BadRecordEnds` | packages/hunk-jj/src/history.ts:386-396 | Data that brings the first bad record: Git lets out the error the batch parser gives for all that was received; Jujutsu completes its cursor with that error and resolves the read that waited |
| `HistoryEndings.ConsumeError` | packages/hunk-git/src/history.ts:394-414 | Whatever the chunks, the error of a bad record is the batch parser's error on the text received |
| `HistoryEndings.ReadersNeverFail` | packages/hunk-git/src/history.ts:467-487 | Only the process and its output change the failure or complete the cursor: no read, abort or close does |
| `HistoryEndings.DataPausesExactly` | packages/hunk-git/src/history.ts:416-419 | Data pauses its producer if and only if 512 commits or more are then queued, unless it brings the first bad record |
| `HistoryEndings.PageResumesExactly` | packages/hunk-git/src/history.ts:475-477 | A page resumes a paused producer if and only if the stream lives and fewer than 256 commits are left |
| `HistoryParser.ParseBatch` | packages/hunk-git/src/history.ts:257-306 | The parser with its offset loop computes the record-by-record parse, truncation and first bad record included |
| `HistoryParser.DecodeRecords` | packages/hunk-jj/src/history.ts:140-191 | The offset loop alone: all commits in order, or the first bad record |
| `HistoryRecords.DecodeGit` | packages/hunk-git/src/history.ts:272-303 | Accepted Git records have full object ids for commit and parents and a non-empty subject and author |
| `HistoryRecords.DecodeJj` | packages/hunk-jj/src/history.ts:142-189 | Accepted Jujutsu records have full commit ids for commit and parents and a one-line, non-empty subject |
| `HistoryRecords.SplitDescription` | packages/hunk-jj/src/history.ts:105-114 | The subject of any description is one non-empty line |
| `HistoryRecords.RootNeverSurfaces` | packages/hunk-jj/src/history.ts:164-169 | No parent of an accepted Jujutsu commit is the virtual root |
| `HistoryRecords.GitRecordRoundTrip` | packages/hunk-git/src/history.ts:257-306 | Printing any commit in the `%H %h %P %an %ae %aI %s %b` format and decoding it returns the commit that stands for it, in first-parent and omitted-graph modes too; name, address, subject and body may be empty, and the date may be in either spelling of UTC |
| `HistoryRecords.UtcSpelledOneWay` | packages/hunk-git/src/history.ts:248-254 | Both spellings of a UTC date are shown as `Z`, and every other date as it is |
| `HistoryRecords.JjRecordRoundTrip` | packages/hunk-jj/src/history.ts:22-37 | Printing any revision through the 13-field history template and decoding it returns the commit that stands for it, in first-parent and omitted-graph modes too: virtual-root parents dropped and every bookmark and tag kept in order |
| `HistoryRecords.DescriptionRoundTrip` | packages/hunk-jj/src/history.ts:105-114 | A subject, blank line and body split into exactly the two; a subject alone has no body; an empty description gets the placeholder |
| `HistoryCommits.JjParentsPicked` | packages/hunk-jj/src/history.ts:164-169 | The parents of a decoded Jujutsu commit are exactly the printed ids that are not all zeros, as often as printed and in printed order |
| `HistoryCommits.JjParentsKept` | packages/hunk-jj/src/history.ts:164-166 | A revision printed without the virtual root keeps its parents exactly |
| `HistoryCommits.JjRootDropped` | packages/hunk-jj/src/history.ts:164-166 | A revision printed with the virtual root among its parents keeps exactly the others |
| `HistoryCommits.JjFirstParent` | packages/hunk-jj/src/history.ts:164-170 | In first-parent mode a Jujutsu commit has just the first of the parents it has otherwise |
| `HistoryCommits.GitParents` | packages/hunk-git/src/history.ts:283-284 | A Git commit has exactly the printed parents, or the first of them in first-parent mode |
| `HistoryCommits.GitAccepts` | packages/hunk-git/src/history.ts:280-291 | Exactly which Git records are accepted: full id, abbreviated id, a date, and full ids for the parents that are kept |
| `HistoryCommits.JjAccepts` | packages/hunk-jj/src/history.ts:142-169 | Exactly which Jujutsu records are accepted: full commit id, displayed id, change id, timestamp, and full ids for the parents that are not the root |
| `HistoryCommits.FullIdIsHex` | packages/hunk-git/src/history.ts:16 | A full id is exactly the lower-case hexadecimal of 20 or of 32 bytes |
| `HistoryCommits.AbbreviatedIdIsPrefix` | packages/hunk-git/src/history.ts:17 | A displayed id is exactly a prefix, of four characters or more, of some full id |
| `HistoryCommits.ReverseHexIsChangeId` | packages/hunk-jj/src/history.ts:19 | The ids Jujutsu writes in digits counted down from z are displayed ids if and only if they have 4 to 64 digits |
| `HistoryCommits.OddCharacterRefused` | packages/hunk-git/src/history.ts:16-17 | No id holds a character between or beside the digits and the lower-case letters |
| `HistoryCommits.DescriptionForms` | packages/hunk-jj/src/history.ts:105-114 | However a description ends, and whether or not a blank line parts them, its subject and its body come out |
| `HistoryCommits.SubjectAlone` | packages/hunk-jj/src/history.ts:105-114 | A description of one line has no body |
| `HistorySource.GitLogRoundTrip` | packages/hunk-git/src/history.ts:394-419 | End to end, in every mode: any run that has received the log printed for a list of commits has delivered and queued exactly the commits that stand for them |
| `HistorySource.JjLogRoundTrip` | packages/hunk-jj/src/history.ts:369-394 | End to end, in every mode: any run that has received the log printed for a list of revisions has delivered and queued exactly the commits that stand for them |
| `HistorySource.LogDelivered` | packages/hunk-jj/src/history.ts:369-396 | For either backend, a run that has received a log of decodable records has delivered and queued exactly what they decode to |
| `HistorySource.HistorySource.Wake` | packages/hunk-git/src/history.ts:390-393 | The waiter loop resolves exactly the registered pending read and empties the set |
| `HistorySource.HistorySource.CompleteRecord` | packages/hunk-git/src/history.ts:401-411 | Joining the held fields, parsing them and pushing the result moves one record to the queue, or reports its error with fields and queue kept |
| `HistorySource.HistorySource.Drain` | packages/hunk-git/src/history.ts:396-412 | The delimiter loop leaves queue, fields and buffer where the reassembler puts them, bad record included |
| `HistorySource.HistorySource.Consume` | packages/hunk-jj/src/history.ts:369-384 | The new state and error are those of the step function the theorems are about |
| `HistorySource.HistorySource.OnData` | packages/hunk-jj/src/history.ts:386-396 | Data handler of both backends: pause at 512; a bad record fails a Jujutsu cursor and escapes a Git one |
| `HistorySource.HistorySource.OnError` | packages/hunk-git/src/history.ts:426-430 | Spawn failure completes the cursor with a failure and wakes its reader |
| `HistorySource.HistorySource.OnClose` | packages/hunk-git/src/history.ts:431-445 | Process close: last text, then truncation, then exit status unless closed, then wake |
| `HistorySource.HistorySource.Close` | packages/hunk-jj/src/history.ts:363-368 | Closing is idempotent, and the first close wakes the reader |
| `HistorySource.HistorySource.WaitForData` | packages/hunk-jj/src/history.ts:428-446 | Registers one fresh waiter, or rejects at once for a fired signal, closing a Jujutsu stream |
| `HistorySource.HistorySource.Advance` | packages/hunk-git/src/history.ts:472-480 | From the head of the wait loop: park, throw, or page at most the target and resume below 256 |
| `HistorySource.HistorySource.ReadBegin` | packages/hunk-jj/src/history.ts:450-459 | A read begins: concurrent reads refused, limits clamped, an aborted Jujutsu read closes the stream |
| `HistorySource.HistorySource.ReadResume` | packages/hunk-git/src/history.ts:472-480 | A settled read re-checks its condition, or rethrows an abort and releases the cursor |
| `HistorySource.HistorySource.Abort` | packages/hunk-jj/src/history.ts:439-443 | An abort withdraws the waiter and rejects the read, and closes a Jujutsu stream; it is not heard once the read was woken |
| `Graphemes.PreviousGraphemeBoundary` | examples/extensions/inline-edit/index.ts:124-133 | The loop returns the last segment start strictly before the column |
| `Graphemes.SnapGraphemeBoundary` | examples/extensions/inline-edit/index.ts:136-148 | The loop returns the last boundary at or before the column |
| `Graphemes.NextGraphemeBoundary` | examples/extensions/inline-edit/index.ts:151-158 | The loop returns the end of the first segment that starts at or after the column |
| `Graphemes.GraphemeColumn` | examples/extensions/inline-edit/index.ts:161-170 | The loop counts the segments before a boundary |
| `Graphemes.BoundaryAtGraphemeColumn` | examples/extensions/inline-edit/index.ts:173-182 | The loop finds the boundary at a grapheme column, or the end of the line |
| `Graphemes.SnapIsNearest` | examples/extensions/inline-edit/index.ts:136-148 | Snapping gives the nearest boundary at or before the column, and leaves a boundary where it is |
| `Graphemes.PreviousIsNearest` | examples/extensions/inline-edit/index.ts:124-133 | The previous boundary is the nearest one strictly before the caret |
| `Graphemes.FollowingIsNearest` | examples/extensions/inline-edit/index.ts:151-158 | From a boundary, the next one is the nearest strictly after it, and the previous boundary of that is the start |
| `Graphemes.PreviousThenFollowing` | examples/extensions/inline-edit/index.ts:124-158 | Back one boundary and forward one returns to the start |
| `Graphemes.CaretsAreBoundaries` | examples/extensions/inline-edit/index.ts:124-182 | Every column the five helpers can give the caret is a boundary |
| `Graphemes.ColumnRoundTrip` | examples/extensions/inline-edit/index.ts:161-182 | `boundaryAtGraphemeColumn` undoes `graphemeColumn` at every boundary |
| `Graphemes.ColumnOfStart` | examples/extensions/inline-edit/index.ts:161-182 | `graphemeColumn` undoes `boundaryAtGraphemeColumn` at every column the line has |
| `Graphemes.OneGraphemeNoBreak` | examples/extensions/inline-edit/index.ts:247-257 | A single grapheme that does not start with a line break holds none, so typing never breaks a line |
| `EditBuffer.KeyKeeps` | examples/extensions/inline-edit/index.ts:326-439 | Every key keeps the caret on a boundary of an existing line, provenance parallel and listing 1..N in order, and lines unbroken; and no key puts two hunks on one row |
| `EditBuffer.KeyStaysInBounds` | examples/extensions/inline-edit/index.ts:693-739 | No key takes the caret out of the buffer, whatever the hunks |
| `EditBuffer.SplitThenBackspace` | examples/extensions/inline-edit/index.ts:346-402 | Enter then backspace restores lines, provenance and caret if and only if the row does not belong to two hunks |
| `EditBuffer.RightThenLeft` | examples/extensions/inline-edit/index.ts:420-438 | Away from the end, right then left returns to the same buffer, across line ends too |
| `EditBuffer.LeftThenRight` | examples/extensions/inline-edit/index.ts:420-438 | Away from the start, left then right returns to the same buffer, across line ends too |
| `EditBuffer.DownThenUp` | examples/extensions/inline-edit/index.ts:406-419 | Down to a line with enough graphemes keeps the grapheme column, and up again returns to the same buffer |
| `EditBuffer.FlattenSplice` | examples/extensions/inline-edit/index.ts:377-398 | Splicing rows for rows that list the same document lines leaves the whole listing unchanged |
| `EditDocument.RewritingIsIdentityExactlyWhenUniform` | examples/extensions/inline-edit/index.ts:207-320 | Loading and writing an unedited document returns it byte for byte if and only if all its line terminators are the detected one |
| `EditDocument.SessionTextIsStable` | examples/extensions/inline-edit/index.ts:260-323 | After any run of keys on any document, loading and writing the session text changes nothing |
| `EditDocument.RenderedIsStable` | examples/extensions/inline-edit/index.ts:207-223 | Any unbroken lines joined with one terminator load and write back unchanged |
| `EditDocument.SessionKeeps` | examples/extensions/inline-edit/index.ts:295-402 | For every run of keys on any document, each original line is on exactly one row and in order, the caret is on a boundary, and over hunks that share no line of the document no row belongs to two |
| `EditDocument.SessionSplitUndone` | examples/extensions/inline-edit/index.ts:346-402 | In every session over hunks that share no line of the document, backspace undoes Enter exactly |
| `EditDocument.OpensAtLine` | examples/extensions/inline-edit/index.ts:533 | A session opens at the start of the line it was asked for, or of the nearest line the document has |
| `EditDocument.DetectUniform` | examples/extensions/inline-edit/index.ts:218-223 | When all terminators agree, that terminator is detected |
| `EditDocument.SplitJoined` | examples/extensions/inline-edit/index.ts:207-215 | Unbroken lines joined with a terminator split back into those lines, every break being the joiner |
| `EditDocument.JoinLines` | examples/extensions/inline-edit/index.ts:207-215 | When every terminator is the same, joining the split lines with it gives the text back |
| `EditDocument.DetectedAmongBreaks` | examples/extensions/inline-edit/index.ts:218-223 | The two substring tests of newline detection are true exactly when such a terminator occurs |
| `EditFlat.InsertIsFlatInsertion` | examples/extensions/inline-edit/index.ts:338-344 | Typing inserts the text into the joined document at the caret offset and changes nothing else |
| `EditFlat.InsertMovesPast` | examples/extensions/inline-edit/index.ts:338-344 | The caret follows the typed text, short of it exactly when that point is not a grapheme boundary |
| `EditFlat.BackspaceIsFlatErasure` | examples/extensions/inline-edit/index.ts:349-356 | Inside a line, backspace removes exactly the previous grapheme from the joined document, and the caret lands where that grapheme was if and only if the new line has a boundary there, else on a boundary before it |
| `EditFlat.SplitIsFlatNewline` | examples/extensions/inline-edit/index.ts:387-402 | Enter inserts the terminator at the caret offset |
| `EditFlat.SplitMovesPast` | examples/extensions/inline-edit/index.ts:399-401 | Enter moves the offset past the terminator |
| `EditFlat.JoinIsFlatErasure` | examples/extensions/inline-edit/index.ts:376-383 | A join that is not refused removes exactly the terminator before the caret |
| `EditFlat.JoinMovesBack` | examples/extensions/inline-edit/index.ts:381-383 | A join leaves the caret at the seam, or at the boundary before it |
| `EditFlat.MoveIsFlatNothing` | examples/extensions/inline-edit/index.ts:405-439 | Caret moves leave the text alone |
| `EditFlat.RightInLine` | examples/extensions/inline-edit/index.ts:431-438 | Inside a line, right moves the offset on by exactly the next grapheme |
| `EditFlat.RightToNextLine` | examples/extensions/inline-edit/index.ts:432-434 | From the end of a line, right moves the offset past exactly the terminator |
| `EditFlat.BackspaceIsNoOpExactly` | examples/extensions/inline-edit/index.ts:347-384 | Backspace leaves the text alone if and only if the caret is at the start of the document or the join would put two hunks on one row; then it changes nothing at all |
| `EditKeys.EnterInserts` | examples/extensions/inline-edit/index.ts:723-724 | The Enter key inserts the document's terminator at the offset and moves past it |
| `EditKeys.BackspaceErasesGrapheme` | examples/extensions/inline-edit/index.ts:721-722 | Inside a line the backspace key removes the previous grapheme |
| `EditKeys.BackspaceErasesTerminator` | examples/extensions/inline-edit/index.ts:721-722 | At the start of a line it removes the terminator before the offset, if one hunk at most owns the two lines |
| `EditKeys.BackspaceDoesNothing` | examples/extensions/inline-edit/index.ts:721-722 | At the start of the document, or where two hunks own the lines, it changes nothing |
| `EditKeys.TypingInserts` | examples/extensions/inline-edit/index.ts:725-733 | A printable key inserts its own sequence at the offset, and the caret reaches its end if and only if that is a boundary |
| `EditKeys.VerticalKeyMoves` | examples/extensions/inline-edit/index.ts:714-720 | The up and down keys move one line that way, if there is one, and keep the grapheme column or the line's end |
| `EditKeys.RightKeyMoves` | examples/extensions/inline-edit/index.ts:714-720 | The right key moves the offset on by one grapheme or past a terminator, and at the end of the document not at all |
| `EditKeys.LeftKeyMoves` | examples/extensions/inline-edit/index.ts:714-720 | The left key moves it back by one grapheme or before a terminator, and at the start not at all |
| `EditKeys.EnterKeepsSources` | examples/extensions/inline-edit/index.ts:384-402 | Enter leaves the document lines of a row with its first half, gives the second half none and moves the other rows unchanged |
| `EditKeys.JoinMergesSources` | examples/extensions/inline-edit/index.ts:357-382 | A join puts the document lines of both rows on one, in order, and moves the other rows unchanged |
| `EditKeys.OtherKeysKeepSources` | examples/extensions/inline-edit/index.ts:335-347 | No other key changes which document lines the rows present |
| `EditKeys.KeyAnswers` | examples/extensions/inline-edit/index.ts:693-741 | Exactly which keys ask for a save, which the editor acts on and which it passes back; a key it does not act on leaves the buffer alone |
| `EditLayout.SessionLayout` | examples/extensions/inline-edit/index.ts:650-682 | In every session, whatever the hunks, extents are in bounds and a row keeps its source binding if and only if it holds lines of exactly one hunk; hunks as a diff lists them have extents in order, pairwise disjoint and below the header |
| `EditLayout.BindingsKeptExactly` | examples/extensions/inline-edit/index.ts:667-681 | No run of keys ever unbinds a row that holds a line of a hunk, if and only if no line of the document lies in two hunks |
| `EditLayout.LayoutBinds` | examples/extensions/inline-edit/index.ts:650-681 | With or without a header row, a row keeps its binding if and only if it presents lines and exactly one hunk claims it: a hunk it holds a line of, or on row 0 one that no row represents |
| `EditLayout.ComputeExtent` | examples/extensions/inline-edit/index.ts:650-665 | The sweep over the rows finds the first and the last row holding a line of the hunk, or collapses onto row 0 |
| `EditLayout.HunkIsShown` | examples/extensions/inline-edit/index.ts:650-664 | A hunk has a first and a last row if and only if it holds a line of the document |
| `EditLayout.ExtentsAreApart` | examples/extensions/inline-edit/index.ts:650-682 | A later hunk's rows all come after an earlier hunk's |
| `EditLayout.InsideMeansTouching` | examples/extensions/inline-edit/index.ts:671-676 | A bound row inside an extent holds a line of that very hunk |
| `Extents.CountOneIsOwned` | examples/extensions/inline-edit/index.ts:672-675 | Counting one owner is the same as having a unique owner |
| `EditSession.EditSession.constructor` | examples/extensions/inline-edit/index.ts:260-301 | A new session holds the loaded buffer, the document's terminator, an empty mailbox and the normalised text as saved |
| `EditSession.EditSession.Text` | examples/extensions/inline-edit/index.ts:320 | The text of unbroken lines is stable: loading it and writing it back unedited gives the same text |
| `EditSession.EditSession.Post` | examples/extensions/inline-edit/index.ts:270-286 | Posting takes the mailbox to the state, and hands over the request, that the mailbox theorems speak of |
| `EditSession.EditSession.Next` | examples/extensions/inline-edit/index.ts:305-319 | Asking answers or parks as the mailbox theorems say |
| `EditSession.EditSession.ClampCursor` | examples/extensions/inline-edit/index.ts:326-330 | Moves only the caret, onto the nearest boundary of an existing line |
| `EditSession.EditSession.InsertText` | examples/extensions/inline-edit/index.ts:338-344 | In place, the buffer becomes the insertion of the model and the mailbox is untouched |
| `EditSession.EditSession.DeleteBackwards` | examples/extensions/inline-edit/index.ts:347-384 | In place, the erase, refused join or join of the model |
| `EditSession.EditSession.SplitLine` | examples/extensions/inline-edit/index.ts:387-402 | In place, the split of the model |
| `EditSession.EditSession.MoveCursor` | examples/extensions/inline-edit/index.ts:405-439 | In place, the caret move of the model; lines and provenance stay |
| `EditSession.EditSession.OnKey` | examples/extensions/inline-edit/index.ts:693-739 | In place, the key handling of the model; a save key only posts a save |
| `Mailbox.MailboxRuns` | examples/extensions/inline-edit/index.ts:265-319 | For every interleaving, the reader receives saves and then only ends, a parked reader and a held request never coexist, no reader is parked after the end, and no more saves arrive than were posted |
| `Mailbox.EndIsForever` | examples/extensions/inline-edit/index.ts:270-316 | After the end every question is answered at once with an end and no save is delivered |
| `Mailbox.SavesReachReader` | examples/extensions/inline-edit/index.ts:280-318 | However many saves are posted between two answers, the reader's next question receives one save |
| `Mailbox.ParkedReaderIsHanded` | examples/extensions/inline-edit/index.ts:280-288 | A parked reader is handed what is posted at once |
| `Mailbox.EndReachesReader` | examples/extensions/inline-edit/index.ts:280-318 | The end supersedes saves nobody has read, and the reader's next question receives it |
| `Mailbox.QuestionParks` | examples/extensions/inline-edit/index.ts:305-318 | With nothing to answer, a question parks its reader |
| `EditorProtocol.NoHandlerIsOrphaned` | examples/extensions/inline-edit/index.ts:488-543 | Across every interleaving of keys, reads, writes, throws, mode entries and exits, at most one command run holds a session that has not ended, that session is the live one, and a parked run always holds it with the mode active on its file |
| `EditorProtocol.OneOpener` | examples/extensions/inline-edit/index.ts:488-543 | A session appears only when the one opening run's read arrives with the mode still active on its file, and never beside a live one |
| `EditorProtocol.EndedHandlerDrains` | examples/extensions/inline-edit/index.ts:781-801 | Over every continuation after its session has ended, a command run takes at most four turns of its own, whatever else happens, and after four it has finished or a write threw |
| `EditorProtocol.RunKeeps` | examples/extensions/inline-edit/index.ts:684-806 | The invariant of every reachable protocol state: one opening slot, one live session, one run to a session, mailbox and run phases in step |
| `EditorProtocol.LiveIsServed` | examples/extensions/inline-edit/index.ts:781-801 | In every run in which no write throws, the live session has a command run asking, waiting, holding a request or writing for it |
| `EditorProtocol.LiveIsServedExactly` | examples/extensions/inline-edit/index.ts:781-801 | Should the host reject a write, the live session has a run at work on it if and only if its own write has not thrown |
| `EditorProtocol.ThrownWriteStrands` | examples/extensions/inline-edit/index.ts:781-801 | The six steps that would leave a session live with no run at work on it: open, read, ask, save, turn to writing, throw |
| `EditorProtocol.CrashedExactly` | examples/extensions/inline-edit/index.ts:781-801 | A run has left a session by an exception if and only if a write of that session threw at some point of the run |
| `EditorCommands.CommandOpensExactly` | examples/extensions/inline-edit/index.ts:488-517 | In any run, Ctrl-E makes the mode active on the selected file and starts one opening if and only if a file is selected, nothing is opening or live, the file may be written and the host enters the mode; else nothing changes |
| `EditorCommands.ReadOpensExactly` | examples/extensions/inline-edit/index.ts:519-543 | A settled read opens a session on its own file if and only if there was a document and the mode is still active; else no session and no mode is left |
| `EditorCommands.ReadThrowFrees` | examples/extensions/inline-edit/index.ts:538-543 | A read that throws leaves no session and frees the editor |
| `EditorCommands.SaveWritesExactlyEdits` | examples/extensions/inline-edit/index.ts:781-787 | A run told to save writes if and only if the text has changed, and a run told to end finishes |
| `EditorCommands.WritesStartSo` | examples/extensions/inline-edit/index.ts:781-787 | No write starts in any other way |
| `EditorCommands.ExitEnds` | examples/extensions/inline-edit/index.ts:744-753 | Leaving the mode ends the live session, and every other has ended already |
| `GitStatus.StatusRoundTrip` | packages/hunk-git/src/status.ts:62-141 | Printing any report in porcelain v2 and parsing it returns the same entries and branch facts if and only if paths are distinct and at most 20,000; paths may hold spaces and newlines, and a rename source may look like any record |
| `GitStatus.AcceptedIsSound` | packages/hunk-git/src/status.ts:85-134 | Any accepted text yields distinct non-empty paths within the limit, a full object id unless unborn and a non-empty name unless detached |
| `GitRefusals.UnendedStatusRefused` | packages/hunk-git/src/status.ts:62-63 | A status whose last record is not closed is refused |
| `GitRefusals.UnknownRecordRefused` | packages/hunk-git/src/status.ts:76-80 | A record of no known kind is refused, whatever follows it |
| `GitRefusals.UnknownStateRefused` | packages/hunk-git/src/status.ts:92-102 | A change whose letters are not two of the nine Git has is refused, whatever follows it |
| `GitRefusals.StatusLimit` | packages/hunk-git/src/status.ts:86-88 | Distinct paths are accepted up to 20,000 of them, and more are refused |
| `GitRefusals.RenameNeedsSource` | packages/hunk-git/src/status.ts:103-106 | A rename that is the last record, or is followed by an empty one, is refused |
| `GitStatus.ParseGitStatus` | packages/hunk-git/src/status.ts:62-141 | The method as written computes the record-by-record parse, every error case included |
| `GitStatus.ReadRecords` | packages/hunk-git/src/status.ts:69-123 | The index loop, advanced twice by a rename, reads the records as the recursive parse does |
| `GitStatus.ReadEntry` | packages/hunk-git/src/status.ts:85-122 | The checks on one cut record: the entry noted, or the first failing check, whatever headers were read |
| `GitStatus.CutFields` | packages/hunk-git/src/status.ts:45-59 | The field loop cuts the space-ended fields and takes the rest as path, or fails |
| `GitStatus.SpacedCuts` | packages/hunk-git/src/status.ts:45-59 | Fields without spaces, each followed by one, and any non-empty path cut back into themselves |
| `GitStatus.ChangeReads` | packages/hunk-git/src/status.ts:71-122 | One printed change adds exactly its entry, or stops on a repeated path or a full list; it is never taken for a header |
| `GitStatus.ChangesRead` | packages/hunk-git/src/status.ts:69-123 | A printed list of changes reads as its entries if and only if paths are new, distinct and within the limit |
| `GitStatus.HeadingReads` | packages/hunk-git/src/status.ts:71-76 | The printed branch headers read back as the four facts they state |
| `GitWorktrees.WorktreeRoundTrip` | packages/hunk-git/src/status.ts:153-180 | Printing any list of worktrees and parsing it returns them, whatever spaces, newlines or keywords their paths and reasons hold |
| `GitWorktrees.ParseGitStatusWorktrees` | packages/hunk-git/src/status.ts:153-180 | The loop over fields with its open record computes the recursive parse, every error case included |
| `GitRefusals.UnendedWorktreesRefused` | packages/hunk-git/src/status.ts:153-154 | A listing that does not end with a blank field is refused |
| `GitRefusals.BadFieldOutside` | packages/hunk-git/src/status.ts:158-180 | After any worktrees, a field that opens none, or one without a path, is refused, whatever follows |
| `GitRefusals.BadFieldInside` | packages/hunk-git/src/status.ts:158-180 | Inside a worktree, an unknown attribute or another worktree is refused, whatever follows |
| `GitRefusals.BranchShown` | packages/hunk-git/src/status.ts:171 | A branch is shown without `refs/heads/`, any other ref as itself, and a worktree without a ref has none |
| `SiblingPool.PoolIsExact` | packages/hunk-git/src/status.ts:433-483 | Under every schedule indices are claimed once each and in order and at most four reads are in flight; when all workers have returned, every index has been claimed, results are dense and each describes the record at its own index |
| `SiblingPool.AbortRejects` | packages/hunk-git/src/status.ts:435-482 | Once aborted, a worker at work rejects: it claims no more, and a read that was under way brings no result |
| `SiblingPool.EndedWorkerRests` | packages/hunk-git/src/status.ts:435-482 | A worker that has returned or rejected does nothing more |
| `SiblingPool.RunKeeps` | packages/hunk-git/src/status.ts:435-482 | The pool's invariant for every schedule, aborts included: claims, disjoint reads, and each claimed index answered or being read |
| `VimNavigation.AutomatonReadsGrammar` | examples/extensions/vim-navigation/state.ts:79-151 | Over any key stream the automaton executes exactly the commands of a whole-stream reading into counts and operators, each repeat being the full decimal value capped at 10,000 |
| `VimNavigation.PassAndExecutionReset` | examples/extensions/vim-navigation/state.ts:79-151 | A passed key and an executed command both leave the automaton initial |
| `VimNavigation.DigitsMove` | examples/extensions/vim-navigation/state.ts:97-111 | A run of digits executes nothing and leaves the capped value of the whole run |
| `VimNavigation.CountIsRepeat` | examples/extensions/vim-navigation/state.ts:68 | The stored count is the repeat the whole-stream reading assigns, 1 when nothing was typed |
| `VimNavigation.OperatorMoves` | examples/extensions/vim-navigation/state.ts:83-150 | From the state a count leaves, the automaton executes what the reading of the next operator says and returns to the initial state |
| `VimKeys.StepKeys` | examples/extensions/vim-navigation/state.ts:19-24 | With any count entered, j, k, [ and ] execute step down, step up, previous hunk and next hunk with that count |
| `VimKeys.ControlKeys` | examples/extensions/vim-navigation/state.ts:32-35 | Control-D and control-U scroll by half pages with the count |
| `VimKeys.BottomKey` | examples/extensions/vim-navigation/state.ts:75-135 | A capital G, however the terminal reports it, jumps to the bottom |
| `VimKeys.TopKeys` | examples/extensions/vim-navigation/state.ts:75-135 | Two plain g keys jump to the top |
| `VimKeys.AlignKeys` | examples/extensions/vim-navigation/state.ts:26-30 | After z, the keys t, z and b align the current line at the top, center and bottom |
| `VimKeys.CountRepeats` | examples/extensions/vim-navigation/state.ts:97-112 | A count repeats by its decimal value, and by 10,000 when that is more |
| `VimNavigation.VimNavigationState.Reset` | examples/extensions/vim-navigation/state.ts:62-65 | Clears the count and the prefix |
| `VimNavigation.VimNavigationState.ExecuteRelative` | examples/extensions/vim-navigation/state.ts:71-76 | Executes once with the stored repeat and leaves the initial state |
| `VimNavigation.VimNavigationState.HandleKey` | examples/extensions/vim-navigation/state.ts:79-151 | The handler's new state, answer and executed command are the transition the theorems speak of |
| `ChangelogOrder.CompareIsPrecedence` | scripts/generate/generate-changelog.ts:111-162 | The sign of the comparison is precedence as defined in section 11 of SemVer 2.0.0, newest first |
| `ChangelogOrder.CompareIsTotalPreorder` | scripts/generate/generate-changelog.ts:139-162 | The comparison is reflexive, antisymmetric in sign, total and transitive, and ties compose |
| `ChangelogOrder.CompareVersionsDescending` | scripts/generate/generate-changelog.ts:139-162 | The two comparison loops compute the recursive comparison |
| `ChangelogOrder.IdentifierLoopIsPrecedence` | scripts/generate/generate-changelog.ts:154-161 | The prerelease loop agrees with identifier-by-identifier precedence |
| `ChangelogVersions.PrintedOrder` | scripts/generate/generate-changelog.ts:111-162 | On versions as printed, with or without a prerelease on either side, the comparison is section 11 precedence of the three numbers and of the identifiers, newest first |
| `ChangelogVersions.VersionReads` | scripts/generate/generate-changelog.ts:111-120 | A printed version reads as its numbers and its identifiers |
| `ChangelogVersions.SeriesNewestFirst` | scripts/generate/generate-changelog.ts:347-365 | Within each series no release is of lower section 11 precedence than one after it |
| `ChangelogVersions.FlattenedNewestFirst` | scripts/generate/generate-changelog.ts:347-365 | Laid end to end, series of versions without leading zeros list every release so too |
| `ChangelogSeries.GroupsAreTidy` | scripts/generate/generate-changelog.ts:347-365 | Grouping is a permutation of its input into non-empty, homogeneous, distinct series, releases sorted in each and series sorted |
| `ChangelogSeriesOrder.FlattenedInOrderExactly` | scripts/generate/generate-changelog.ts:347-365 | Series laid end to end list all releases newest first if and only if, wherever one major and minor number is spelled in two ways, no release under the spelling that appears later in the input is newer than one under the spelling that appears first |
| `ChangelogSeriesOrder.OneSeriesPerLineExactly` | scripts/generate/generate-changelog.ts:347-365 | Each major and minor number has one series if and only if no two releases spell it differently |
| `ChangelogSeriesOrder.PlainVersionsStayInOrder` | scripts/generate/generate-changelog.ts:165-168 | Versions without leading zeros, as SemVer 2.0.0 requires, always come out newest first, one series to each major and minor number |
| `ChangelogSeriesOrder.LeadingZeroBreaksOrder` | scripts/generate/generate-changelog.ts:165-168 | A concrete failure: with `01.2.1` between `1.2.2` and `1.2.0`, the flattened series are out of order |
| `ChangelogSeriesOrder.SeriesLine` | scripts/generate/generate-changelog.ts:165-168 | A version's series line has its major and minor numbers, patch 0 and no prerelease |
| `ChangelogSeries.Group` | scripts/generate/generate-changelog.ts:347-365 | The map-building loop and the two sorts compute the grouping the theorems speak of |
| `Sorting.SortSorts` | scripts/generate/generate-changelog.ts:362-364 | Under a total preorder the sort orders its items |
| `Sorting.SortIsStable` | scripts/generate/generate-changelog.ts:362-364 | Items of equal standing keep their order |
| `Sorting.SortRanks` | scripts/generate/generate-changelog.ts:362-364 | Items of equal standing that have ranks in increasing order keep them so |
| `ChangelogBlocks.BlocksReattach` | scripts/generate/generate-changelog.ts:205-228 | Re-attaching the marker to each block gives back every line from the first heading outside a fence on |
| `ChangelogBlocks.BlocksAreSlices` | scripts/generate/generate-changelog.ts:205-228 | Each block is its heading without the marker and the lines up to the next heading |
| `ChangelogBlocks.HeadingsExact` | scripts/generate/generate-changelog.ts:205-228 | The headings a split cuts at are exactly the lines that start with the marker where one scan has no fence open |
| `ChangelogFences.HeadingsOutsideFences` | scripts/generate/generate-changelog.ts:205-228 | A line is a heading if and only if it starts with the marker and no fence is open after it, a fence being what blanks and three backticks or tildes open and only a line of the same character closes |
| `ChangelogFences.FenceHides` | scripts/generate/generate-changelog.ts:205-228 | Neither the line that opens a fence nor any line inside it is a heading or starts an entry, and right after the line that closes it a line with the marker is one |
| `ChangelogFences.QuietExactly` | scripts/generate/generate-changelog.ts:209-217 | The loop has no fence open exactly after lines that leave none open: each fence ends at the next fence line of its own character and at no other line |
| `ChangelogFences.DelimiterExactly` | scripts/generate/generate-changelog.ts:210 | The lines that open or close a fence are exactly blanks, then three or more backticks or tildes, then anything |
| `ChangelogFences.LinkReferenceExactly` | scripts/generate/generate-changelog.ts:237-239 | The lines dropped from entries are exactly a bracketed name, a colon, white space and more |
| `ChangelogFences.SubBulletExactly` | scripts/generate/generate-changelog.ts:274 | An indented bullet is exactly white space, a dash or an asterisk, and a space |
| `ChangelogBlocks.BodyAgrees` | scripts/generate/generate-changelog.ts:295-315 | A fresh scan from any line before which no fence is open, as after every heading, classifies each later line as one scan of the whole document does |
| `ChangelogText.NestedSplitsAgree` | scripts/generate/generate-changelog.ts:247-332 | For any markdown, cut, joined and split again release by release and section by section: the raw entries of a section body are exactly the bullets that one scan of the whole document finds in the section's lines, each with what that scan says the lines after it add |
| `ChangelogText.SectionsAgree` | scripts/generate/generate-changelog.ts:298-312 | Splitting the text of a release's body finds exactly the document's own section headings in the release's lines, and each text is the document's lines from one to the next |
| `ChangelogText.TextOutlined` | scripts/generate/generate-changelog.ts:205-228 | Splitting a whole text returns, joined, the document's lines from each heading to the next |
| `ChangelogText.BodyLines` | scripts/generate/generate-changelog.ts:299-301 | Joining a block, cutting it at its first newline and splitting the rest gives its later lines, or one empty line when it has none |
| `ChangelogText.WithinExact` | scripts/generate/generate-changelog.ts:205-228 | The headings listed in a range are exactly the lines there that one scan of the document calls headings |
| `ChangelogBlocks.SplitOnHeadings` | scripts/generate/generate-changelog.ts:205-228 | The fence-tracking loop computes those blocks |
| `ChangelogBlocks.CollectEntries` | scripts/generate/generate-changelog.ts:247-281 | The bullet-collecting loop computes the raw entries of a section |
| `ChangelogBlocks.EntriesAreBullets` | scripts/generate/generate-changelog.ts:251-281 | The raw entries are exactly the bullets outside fences, in order, each its bullet's text followed by what the lines up to the next bullet add: fenced lines and sub-bullets verbatim, prose trimmed, link references dropped |
| `MarkdownTables.FormattingIsStable` | scripts/generate/generate-docs.ts:79-121 | `formatMarkdownTables` applied to its own output changes nothing, for every document |
| `MarkdownTables.FormatMarkdownTables` | scripts/generate/generate-docs.ts:79-121 | The loop that walks `start` and `end` and splices rows in place computes the run-by-run formatting |
| `MarkdownTables.TableIsStable` | scripts/generate/generate-docs.ts:90-118 | Formatting a formatted table changes nothing |
| `MarkdownTables.CellsSurvive` | scripts/generate/generate-docs.ts:90-116 | A rewritten table keeps every trimmed cell the code read from its other rows, escaped bars included; its separators stay separators, and keep their cells, alignment colons included, if and only if each is already dashes of its column's width |
| `MarkdownTableCells.RowKeptExactly` | scripts/generate/generate-docs.ts:90-116 | A rewritten row still says what its own text said if and only if: for one the code reads as no separator, its last character was a bar of its own or white space; for one it reads as a separator, its text said dashes of the columns' widths |
| `MarkdownTableCells.LastCharacterDecides` | scripts/generate/generate-docs.ts:90-116 | Unless a row and what the code reads of it are both separators, the row still says what it said if and only if it ended in a bar of its own or in white space |
| `MarkdownTableCells.DashedRowIsErased` | scripts/generate/generate-docs.ts:90-116 | A row of one cell of dashes and one more character, without a closing bar, is written back as dashes alone |
| `MarkdownTableCells.DashedRowExists` | scripts/generate/generate-docs.ts:90-116 | For one, a row that says `--x` comes back saying `---` |
| `MarkdownTableCells.ReadsOwnCells` | scripts/generate/generate-docs.ts:90-95 | What the code reads of a row is what the row says if and only if the row ends in a bar of its own or in white space |
| `MarkdownTableCells.OpenRow` | scripts/generate/generate-docs.ts:90-116 | A row of two cells without a closing bar is written back without the last character of its second cell |
| `MarkdownTableCells.OpenRowLosesCharacter` | scripts/generate/generate-docs.ts:90-116 | For one, a row that says `ab` and `cd` and lacks its closing bar is written back saying `ab` and `c` |
| `MarkdownTables.RowsAreEven` | scripts/generate/generate-docs.ts:96-116 | All rows of a rewritten table have the same length |
| `MarkdownTables.WrittenReads` | scripts/generate/generate-docs.ts:90-95 | Cells written between spaced bars read back as those cells, trimmed |
| `MarkdownTableShape.RunFormattedAlone` | scripts/generate/generate-docs.ts:79-121 | Each whole run of bar lines is formatted on its own, whatever stands around it |
| `MarkdownTableShape.OtherLinesStay` | scripts/generate/generate-docs.ts:79-121 | Every other line stays as it is, where it is |
| `MarkdownTableShape.UnevenStays` | scripts/generate/generate-docs.ts:105-108 | A table whose rows have not all as many cells is left alone |
| `MarkdownTableShape.CutsExactly` | scripts/generate/generate-docs.ts:93 | The pieces of a row joined by bars are the row, no piece holds an unescaped bar, and none is cut at an escaped one |
| `MarkdownTableShape.WidthExactly` | scripts/generate/generate-docs.ts:96-104 | A column is as wide as its longest cell in the rows that are no separators, or 3 if that is more |
| `MarkdownTableShape.SeparatorCellExactly` | scripts/generate/generate-docs.ts:100-100 | A separator's cells are exactly dashes with or without a colon at either end |
| `Text.BlankExactly` | scripts/generate/generate-docs.ts:94 | The white space that trimming removes, by code point |
| `RenderedMarkdown.SourceIndex.constructor` | examples/extensions/rendered-markdown/index.ts:25-29 | The scan lists where each line begins: after every newline, in order, and at 0 |
| `RenderedMarkdown.SourceIndex.Find` | examples/extensions/rendered-markdown/index.ts:31-41 | The binary search returns one plus the newlines before the clamped offset |
| `RenderedMarkdown.SourceIndex.Range` | examples/extensions/rendered-markdown/index.ts:45-47 | The lines of a token's first and last character |
| `RenderedMarkdown.TokensRunForward` | examples/extensions/rendered-markdown/index.ts:307-318 | Ranges of tokens laid end to end are non-empty and never start before the one above ends |
| `RenderedMarkdown.BindAnchors` | examples/extensions/rendered-markdown/index.ts:406-411 | The pass with `lastBoundLine` computes the anchor choice |
| `RenderedMarkdown.AnchorsAreExact` | examples/extensions/rendered-markdown/index.ts:406-411 | Bound ranges strictly increase without overlap, and a row is left unbound only if it starts inside or above one already bound |
| `RenderedMarkdown.BoundsAreExact` | examples/extensions/rendered-markdown/index.ts:353-375 | Every extent is in bounds, starts and ends on overlapping rows and covers them all, or else is a single row at least distance |
| `RenderedMarkdown.LayoutGeometry` | examples/extensions/rendered-markdown/index.ts:404-446 | Kept anchors are disjoint and in order, each in exactly one extent, and every row showing an added line lies in that hunk's extent |
| `RenderedMarkdown.AddedSpanHolds` | examples/extensions/rendered-markdown/index.ts:423-430 | The span of a hunk's additions holds each of them |
| `RenderedExtents.AddedSpanIsTight` | examples/extensions/rendered-markdown/index.ts:419-429 | The span of a hunk's additions starts where one of them starts and ends where one ends, and there is none without additions |
| `RenderedExtents.UnaddedHunkCovers` | examples/extensions/rendered-markdown/index.ts:419-433 | A hunk that adds nothing covers every row overlapping its new range, or line 1 without one |
| `RenderedExtents.ExtentEndsOverlap` | examples/extensions/rendered-markdown/index.ts:353-376 | When a row overlaps a hunk, the extent runs between two rows that do |
| `RenderedExtents.DistanceIsNearestLine` | examples/extensions/rendered-markdown/index.ts:362-374 | A row is as far from a range as its nearest line is from the range's first |
| `RenderedExtents.LineIsLastPiece` | examples/extensions/rendered-markdown/index.ts:31-42 | An offset falls on the line it is on when the text before it is split at its newlines |
| `RenderedExtents.RangeOfToken` | examples/extensions/rendered-markdown/index.ts:45-47 | A token's range is from the line of its first character to the line of its last |
| `RenderedExtents.TokenRangeAt` | examples/extensions/rendered-markdown/index.ts:307-318 | Each token starts where those before it end |
| `RenderedExtents.OverlapIsSharedLine` | examples/extensions/rendered-markdown/index.ts:357-359 | A row overlaps a range if and only if some line is in both |
| `GhCompare.CompareRoundTrip` | packages/hunk-gh/src/parsing.ts:302-310 | For any two texts, `base...head` parses as that pair if and only if both are valid refs and the base does not start with a dash |
| `GhCompare.AcceptedRangeRejoins` | packages/hunk-gh/src/parsing.ts:269-318 | Whatever the arguments, an accepted comparison is one of them, rejoined from two valid refs, with a valid repository if any |
| `GhCompare.ParseGitHubCompareInvocation` | packages/hunk-gh/src/parsing.ts:269-319 | The argument loop computes the recursive reading, every refusal included |
| `GhCompare.RangeReads` | packages/hunk-gh/src/parsing.ts:303-310 | A range reads as its pair if and only if both refs are valid |
| `GhCompare.BaseComesOff` | packages/hunk-gh/src/parsing.ts:303 | A base without two dots in a row and without a final dot is cut off exactly at the first `...` |
| `GhCompare.SplitDotsRejoins` | packages/hunk-gh/src/parsing.ts:303 | Splitting at `...` and joining again gives the text back |
| `GhCompareForms.CompareInRepository` | packages/hunk-gh/src/parsing.ts:269-325 | With a repository named either way, before the range or after it, and any delegated arguments after `--`, base, head, repository and arguments all come out |
| `GhCompareForms.CompareDelegates` | packages/hunk-gh/src/parsing.ts:269-325 | The same without a repository |
| `GhCompareForms.BadRepositoryRefused` | packages/hunk-gh/src/parsing.ts:313 | A repository that is not valid refuses the comparison |
| `GhCompareForms.HelpWins` | packages/hunk-gh/src/parsing.ts:273-275 | Help, asked for anywhere before `--`, is all that is answered |
| `GhCompareForms.RepositoryExactly` | packages/hunk-gh/src/parsing.ts:46-80 | Exactly which repositories are accepted: owner and name, with or without a supported host |
| `GhCompareForms.PairsRefused` | packages/hunk-gh/src/parsing.ts:16-34 | No ref holds two slashes or dots in a row, or `@{`, whatever stands around them |
| `GhCompareForms.CharactersRefused` | packages/hunk-gh/src/parsing.ts:16-34 | No ref holds a forbidden or control character |
| `GhCompareForms.EndsRefused` | packages/hunk-gh/src/parsing.ts:16-34 | No ref is empty, is `@`, starts or ends with a slash or ends with a dot |
| `GhCompareForms.PartsRefused` | packages/hunk-gh/src/parsing.ts:33 | No part of a ref between slashes starts with a dot or ends with `.lock` |
| `GhCompareForms.LongRefRefused` | packages/hunk-gh/src/parsing.ts:17 | No ref takes more than 1024 bytes of UTF-8 |
| `GhCompareForms.BytesOfConcat` | packages/hunk-gh/src/parsing.ts:17 | The encoding takes one byte for each ASCII character and two to four for each other one |
| `GhCompareForms.PlainNameValid` | packages/hunk-gh/src/parsing.ts:16-34 | Names of letters, digits, dashes and underscores with single slashes between them are refs, up to 1024 bytes |

## Left out

- HistoryTheorems.DeliveredIsBatchParse: speaks of decoded text; chunk decoding by `StringDecoder` is not modelled, so a chunk is the text the decoder returned for it.
- HistoryTheorems.DoneIsTheWholeStream: claims nothing once `close()` was called, because the code does not make `done` final after it, and `close()` may still surface a truncation failure.
- HistoryTheorems.QueueIsBounded: that a paused stream delivers no data, and that the decoder's last text then closes no field, are conditions on the run, as the stream library promises them; every other theorem lets data arrive at any time.
- HistoryTheorems.UncaughtExactlyOnBadRecord: an exception no handler catches ends the run of the model, as it ends the program.
- HistorySource.HistorySource.Consume: one class with a `flavour` stands for the Git and the Jujutsu cursor, whose code differs only where it is tested; killing the child is not modelled, its consequences being later events.
- Graphemes.CaretsAreBoundaries: the segmenter is any function giving increasing starts from 0 that never joins a line break to what is before it; the rest of Unicode Standard Annex 29 is not modelled.
- EditorProtocol.NoHandlerIsOrphaned: assumes the host runs `enterMode`, `onEnter`, `exitMode` and `onExit` synchronously and one mode at a time; the host itself is not part of this model.
- SiblingPool.PoolIsExact: the shared index and result array are modelled as values over atomic steps between awaits, so aliasing of the array is not captured; the contents of a summary are a parameter.
- EditorProtocol.LiveIsServedExactly: `writeDocument` rejects only a request without a string `fileId` and `text`, which the editor always gives, so `WriteThrows` is no event of the host as it stands; `LiveIsServed` is the statement without it.
- EditorProtocol.RunKeeps: the closure variables of the extension are modelled as values over atomic steps, since many command runs share them.
- ChangelogOrder.CompareIsPrecedence: numbers are mathematical integers, and a core part that is not all digits counts as 0, which `Number` need not give for parts like `1e3` that no accepted version has.
- Sorting.SortIsStable: JavaScript's array sort is modelled as the stable order it promises, by insertion.
- VimNavigation.AutomatonReadsGrammar: command tables are finite maps, without the inherited keys of a JavaScript object.
- GhCompare.CompareRoundTrip: which hosts are supported is a parameter, used only for `--repo`.
- ChangelogBlocks.EntriesAreBullets: `parseChangeEntry`, which strips links from each entry, is left out.
- Characters are Unicode scalar values, while JavaScript strings are UTF-16 code units: lengths, columns, padding and string order differ outside the basic plane.
- Processes, file reads, exit codes, abort plumbing and stderr text are events or parameters; error wording is reduced to one constructor for each error.
- `parseChangelog`'s heading pattern, dates and highlights are left out: pattern matching on one line.
- `renderBlock`, `marked` tokens, spans, truncation and tones are left out: rows enter as source ranges.
- Status tokens, operations, ahead and behind counts and upstream lookups are left out: assembly of query results.
- `executeVimCommand`, the pull-request and commit locators of `hunk gh`, and the revset builder are left out: they would add only easy members.
