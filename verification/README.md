# The document ledger and its evidence, verified

This project models the tooling with which continuity-engine keeps its project memory: the scripts
that maintain marker blocks in Markdown documents, and the scripts that record, freeze, audit and
re-verify the evidence of a stage. It proves what those scripts keep over whole runs.

`dafny verify dfyconfig.toml` checks everything.

| file | subject |
|---|---|
| `Text.dfy`, `Outcome.dfy` | strings as Python sees them (`find`, `join`, `lstrip`, `rstrip`), exceptions as values |
| `Markers.dfy` | one update of one block: replace from the first START to the next END, or insert |
| `Ledger.dfy`, `Runs.dfy` | the abstract document, the refinement of every run of updates, its closed form |
| `Naming.dfy`, `Commute.dfy` | the marker names the scripts use; when the order of a document's first two blocks matters |
| `Spans.dfy`, `Order.dfy` | the same question for a text in which markers already stand |
| `Renaming.dfy` | the one-shot rename in front of an update, and when a second pass can tell |
| `Purge.dfy` | delete every block of a kind, then prepend the new one |
| `Sections.dfy`, `Layers.dfy` | notes in one decision section; layered history and how it is taken off |
| `Edits.dfy`, `Rows.dfy` | counted replacement; the in-place loop over matrix rows |
| `Workspace.dfy` | the loops over files, with what an exception or a crash leaves behind |
| `Trees.dfy` | files by content and by hash, and reading a record file |
| `Custody.dfy`, `Handover.dfy` | the chain prepare - freeze - audit; its record files as files that anyone may edit |
| `Acceptance.dfy` | generate and verify |
| `RunRecords.dfy`, `Validation.dfy` | concurrent, killable test runs and their records; sequential validation |
| `Accounting.dfy`, `Categories.dfy` | suite order and pass counts; the categories of pending files |

How the source is represented:

- A document is a `string` after universal-newline decoding. `IsSpace` is `str.isspace`, which is
  also `\s`; `IsBreak` lists the line ends of `splitlines`.
- The pattern `START.*?END` with `re.S` is the leftmost START and the first END behind it.
- A script stops at its first exception. `Outcome.Result` carries it, and the methods of
  `Workspace.Tree` leave the files as they were at that moment.
- SHA-256 is any function of the bytes; conclusions are about equal hashes, except where a theorem
  asks that no two contents share one.
- A record file is read with a function that says what its content means, if anything. In `Handover`
  and `Acceptance` every step reads its records from the tree as it finds it, and the trees of
  different steps are unrelated. What has to be assumed about a read is a hypothesis of the theorem.
- Git's listings and repository facts, the identities found by the test loader, the outcome of a
  test run and the texts of reports are inputs.
- A file write and an exclusive creation are single steps.

Results that the scripts' own comments do not tell:

- An update is last-writer-wins on every text, exactly for blocks that close themselves.
- The first top block and the first end block of a document commute exactly when the document has a
  line end and the `rstrip` of the end update cannot reach its first line. Where markers already
  stand, a condition on the places of the markers and of the first line end is sufficient on every
  text, and necessary where neither START stands twice.
- What a deletion keeps is given by the one way of cutting a text at its closed blocks. Deleting and
  prepending is idempotent exactly when the first stretch does not begin with white space and no cut
  puts a START together that an END follows. Every text settles after at most one run per character.
- A later update can tell that there was a first pass of rename and update exactly when the first
  occurrence that the pass left is outside its block, or inside it where renaming breaks the block.
- A prepare or an audit holds a file to a hash exactly when a record that it reads says so. The guards
  of a stage secure the old baseline and the old frozen source, which the audit hashed. They do not
  secure the audit file until the next prepare, nor a stage's own records between its steps: whoever
  edits a file there and its entry with it is not noticed.
- A file that leaves Git's list during an inheriting stage is checked by that stage's audit for the
  last time. Inheriting stages do not take it back unless it is in their scope; a stage that starts
  from Git's list takes whatever it finds.
- A run interrupted after its results were judged leaves status INTERRUPTED or ERROR with exit code
  0, and only such a run does; `validate_final.py` looks only at the code, `finalize.py` at both.
- Verification after a generated audit succeeds exactly when Git still lists all excluded paths.
  While the audit file has its entries for the files that verify reads, what it notices is given
  exactly. Edited together with `before.json`, it can hide any change of a protected file.
- The runner's pass count is never more than the number of clean tests. It is less exactly when an
  entry is about something that did not run as a test, or a test was skipped twice, or both failed
  and was skipped.

## Model

| member | source | states |
|---|---|---|
| Markers.SubAt | docs/project_memory/p12_second_repair_evidence/sync_docs.py:39 | where a self-closing block stands and no START begins before it, the substitution replaces exactly that block, and a reader gets its inside |
| Markers.ExtractExactly | docs/project_memory/p17_acceptance_evidence/audit.py:76 | from any text with a START a reader gets what is behind it up to the END that follows, or all of it when none does |
| Markers.NoEarlierStart | docs/project_memory/p12_second_repair_evidence/sync_docs.py:39 | replacing from the first START cannot create a START further left, on any text |
| Markers.LastWriterWins | docs/project_memory/p12_second_repair_evidence/sync_docs.py:38-41 | on every text, and for all three ways of inserting, a second update makes the first one unseen, failures included |
| Markers.LastWriterExactly | docs/project_memory/p12_second_repair_evidence/sync_docs.py:38-41 | a block has that property for all texts exactly when it opens with START and its first END closes it |
| Ledger.InsertBehindFirst | docs/project_memory/p12_second_repair_evidence/sync_docs.py:41 | inserting after the first newline is inserting two lines behind the first line |
| Ledger.FirstFactText | docs/project_memory/p12_second_repair_evidence/sync_docs.py:68 | the first appended block stands behind the history, stripped or as it is, on lines of its own |
| Ledger.InsertBehindLast | docs/project_memory/p12_repair_evidence/sync_docs.py:66 | once the text ends in a block, the stripping append and the plain append give the same text |
| Ledger.StepRefines | docs/project_memory/p12_second_repair_evidence/sync_docs.py:29-42 | one text update is one update of the abstract document: overwrite in place, newest on top, or last at the end |
| Ledger.RunRefines | docs/project_memory/p12_second_repair_evidence/sync_docs.py:29-42 | every run of updates over any number of kinds refines the abstract document |
| Runs.RunSettles | docs/project_memory/p12_second_repair_evidence/sync_docs.py:29-42 | the outcome of a run in closed form: kinds in order of first use, each with its latest text |
| Runs.FreshRunSettles | docs/project_memory/p12_second_repair_evidence/sync_docs.py:29-42 | the text after any run over a marker-free text: that closed form, first line and history unchanged |
| Runs.RunSettlesAnyDoc | docs/project_memory/p12_second_repair_evidence/sync_docs.py:29-42 | the text after any run over a document that has blocks already: as if its blocks had been made by earlier updates |
| Runs.EndsCommute | docs/project_memory/p12_second_repair_evidence/sync_docs.py:62-69 | runs with the same top updates and the same end updates, in any interleaving, give the same text, over documents with or without blocks |
| Runs.OneBlockPerKind | docs/project_memory/p12_second_repair_evidence/sync_docs.py:38-41 | after a run, over a document with or without blocks, each kind ever used has its START in one block only, the latest, and a reader gets its inside; any other kind has none |
| Commute.FirstBlocksCommuteExactly | docs/project_memory/p12_second_repair_evidence/sync_docs.py:62-69 | the exact condition under which the first top block and the first end block commute |
| Commute.NoLineDoesNotCommute | docs/project_memory/p12_second_repair_evidence/sync_docs.py:41 | without a line end the top update fails, unless an end update came first |
| Order.FreeCommutes | docs/project_memory/p12_second_repair_evidence/sync_docs.py:38-41 | on every text, a condition on the places of the markers and of the first line end under which a top update and an end update commute |
| Order.OrderExactly | docs/project_memory/p12_second_repair_evidence/sync_docs.py:62-69 | where neither START stands twice, they commute under that condition only |
| Order.ScriptPair | docs/project_memory/p12_second_repair_evidence/sync_docs.py:33-37 | two blocks in the scripts' format, named by four different words, meet what these theorems ask |
| Order.CrossedDoNotCommute | docs/project_memory/p12_second_repair_evidence/sync_docs.py:38-41 | with crossed markers the two orders of updates give different texts |
| Naming.MarkersApart | docs/project_memory/p12_second_repair_evidence/sync_docs.py:38 | one of the scripts' markers occurs in another only if they are the same |
| Naming.BlockTextInner | docs/project_memory/p12_second_repair_evidence/sync_docs.py:33-37 | a block in the scripts' format is self-closing, and a reader gets its body on lines of its own |
| Naming.ScriptBlocksAreClean | docs/project_memory/p12_second_repair_evidence/sync_docs.py:33-37 | blocks in the scripts' format, with a body free of comment openings, meet what the run theorems ask |
| Purge.CutExists | docs/project_memory/p16_repair_evidence/sync_docs.py:71 | every text can be cut, from left to right, into stretches, closed blocks and the white space behind them |
| Purge.CutUnique | docs/project_memory/p16_repair_evidence/sync_docs.py:71 | in one way only |
| Purge.DeletionKeeps | docs/project_memory/p16_repair_evidence/sync_docs.py:71 | the deletion leaves the stretches, joined |
| Purge.StartLeftExactly | docs/project_memory/p16_repair_evidence/sync_docs.py:71 | a START is left exactly when the last stretch has one or a cut puts one together |
| Purge.ClosedLeftExactly | docs/project_memory/p16_repair_evidence/sync_docs.py:71 | a closed block is left exactly when a cut puts a START together that an END follows |
| Purge.NewestIsDeleted | docs/project_memory/p16_repair_evidence/sync_docs.py:71 | the previous block goes with all white space behind it |
| Purge.SecondRunExactly | docs/project_memory/p16_repair_evidence/sync_docs.py:69-74 | a second run makes the first one unseen exactly when the first stretch does not begin with white space and no cut puts together a START that an END follows |
| Purge.LeadingBlankIsLost | docs/project_memory/p16_repair_evidence/sync_docs.py:71 | a text on which it does not |
| Purge.OnlyNewestBlockStays | docs/project_memory/p16_repair_evidence/sync_docs.py:69-74 | any number of runs leave the newest block and a residue that depends only on their number |
| Purge.RunsConverge | docs/project_memory/p16_repair_evidence/sync_docs.py:69-74 | after more runs than characters the document depends on the newest block alone, for every text |
| Purge.SecondRunSettles | docs/project_memory/p16_repair_evidence/sync_docs.py:71 | when no cut puts a closed block together, the second run only strips leading white space and later runs change nothing |
| Purge.OneBlockExactly | docs/project_memory/p16_repair_evidence/sync_docs.py:73-74 | the new block is at offset 0, and the only one exactly when the last stretch has no START and no cut puts one together |
| Purge.CutMendsStart | docs/project_memory/p16_repair_evidence/sync_docs.py:71 | wherever a block tears a START apart, the deletion mends it |
| Sections.EndExactly | docs/project_memory/p18_r2_evidence/finish.py:172-173 | a section ends in front of the first second-level heading behind its own, or with the text |
| Sections.InsertionIsLocal | docs/project_memory/p18_r2_evidence/finish.py:171-175 | the section grows by the note, the rest is unchanged, and the section's end moves by the note |
| Sections.SecondNoteLands | docs/project_memory/p18_r2_evidence/finish.py:171-175 | where a second note lands, for every two notes, with or without headings in the first |
| Sections.NotesAccumulate | docs/project_memory/p18_r2_evidence/finish.py:171-175 | any sequence of notes without headings accumulates in order at the end of the section |
| Layers.PeelExactly | docs/project_memory/p18_acceptance_evidence/audit.py:93-95 | splitting once undoes one layer exactly when no separator begins in the block, even if the history has separators |
| Layers.UpToExactly | docs/project_memory/p18_acceptance_evidence/audit.py:101 | cutting the log at the appended heading leaves what is in front of it, and a log without it as it is |
| Layers.EveryVersionComesBack | docs/project_memory/p18_exception_evidence/finalize.py:138-154 | splitting n times gives the document as it was n layers ago |
| Layers.DecisionLogExactly | docs/project_memory/p18_acceptance_evidence/audit.py:100-102 | the old decision log comes back exactly when it did not contain the appended heading |
| Layers.ReaderAgreesExactly | docs/project_memory/p17_acceptance_evidence/audit.py:73-79 | the auditor reads exactly the archived body, on every prior document, exactly when END first occurs behind it |
| Edits.SplitRoundTrip | docs/project_memory/p13_evidence/implement_wiring.py:7-8 | the pieces between occurrences join to the text and are the leftmost non-overlapping ones |
| Edits.SplitUnique | docs/project_memory/p13_evidence/implement_wiring.py:7-8 | no other pieces are |
| Edits.ReplaceLength | docs/project_memory/p13_evidence/implement_wiring.py:8 | a replacement changes the length by count times the difference, empty patterns included |
| Edits.EditOneExactly | docs/project_memory/p13_evidence/implement_wiring.py:6-8 | an edit succeeds exactly when the text is made of count+1 leftmost pieces, and then joins these with the new word |
| Edits.EditStopsExactly | docs/project_memory/p13_evidence/implement_wiring.py:6-8 | a list of edits fails exactly when there is a first wrong count, in the text as the earlier edits left it; there is one such place only |
| Edits.EditLength | docs/project_memory/p13_evidence/implement_wiring.py:4-9 | a successful list of edits grows the text by the sum its own entries say |
| Rows.RewriteRows | docs/project_memory/p13_evidence/archive_p12.py:36-40 | the in-place loop gives each matching line the new status behind its own text, leaves every other line as it is, and counts the matching ones |
| Rows.StatusIsReplaced | docs/project_memory/p13_evidence/archive_p12.py:38-39 | of a row that ends in the old status everything in front of it is kept |
| Rows.LinesExactly | docs/project_memory/p13_evidence/archive_p12.py:35 | the lines of a text, for each of the line ends that `splitlines` knows, a carriage return with a line feed being one |
| Rows.RejoinExactly | docs/project_memory/p13_evidence/archive_p12.py:35-42 | splitting and rejoining gives the text back exactly when every line ends in a line feed |
| Rows.RewrittenOnce | docs/project_memory/p13_evidence/archive_p12.py:38-39 | a row changes exactly when it matches, and never matches again |
| Rows.AcceptedKeepsRow | docs/project_memory/p13_evidence/archive_p12.py:38-39 | a line is either as it was, or `x` with the new status where it was `x` with the old one |
| Rows.CountIsChanges | docs/project_memory/p13_evidence/archive_p12.py:36-41 | the counter equals the number of rows that changed |
| Rows.MatrixExactly | docs/project_memory/p13_evidence/archive_p12.py:41 | archiving succeeds exactly when the number of rows that change is the expected one |
| Rows.MatrixArchivedOnce | docs/project_memory/p13_evidence/archive_p12.py:35-44 | archiving keeps every line in place and every row's own text, changes the expected number, and fails when repeated |
| Workspace.Tree.SyncAll | docs/project_memory/p12_second_repair_evidence/sync_docs.py:29-42 | the loop over the documents leaves the files of its specification, also when it stops early |
| Workspace.Tree.ArchiveAll | docs/project_memory/p17_acceptance_evidence/archive.py:130-136 | the guarded archive loop, at the front or behind the first line, does what its specification says |
| Workspace.Tree.RenewAll | docs/project_memory/p16_repair_evidence/sync_docs.py:69-74 | the delete-and-prepend loop does what its specification says |
| Workspace.Tree.AddNote | docs/project_memory/p18_r2_evidence/finish.py:171-175 | the note is written into its section, or nothing is written |
| Workspace.Tree.EditFile | docs/project_memory/p13_evidence/implement_wiring.py:4-9 | the file is written when every count is right, and unchanged otherwise |
| Workspace.Tree.ArchiveRows | docs/project_memory/p13_evidence/archive_p12.py:35-44 | the matrix is written when the row count is right, and unchanged otherwise |
| Workspace.OneJob | docs/project_memory/p12_second_repair_evidence/sync_docs.py:29-42 | what each of the three loops makes of one document, and where it stops |
| Workspace.RunJobsConcat | docs/project_memory/p12_second_repair_evidence/sync_docs.py:29-42 | a run over more documents goes on from where the first ones were left, or has stopped there |
| Workspace.InterruptedRunIsForgotten | docs/project_memory/p12_second_repair_evidence/sync_docs.py:29-42 | a run cut off anywhere whose renames are spent, followed by any full run over its documents, ends exactly like the full run alone |
| Workspace.UpdatesAreLocal | docs/project_memory/p12_second_repair_evidence/sync_docs.py:29-42 | a finished run without a rename leaves in each document what the updates named for it make of it, one after the other |
| Workspace.OneBlockInTree | docs/project_memory/p12_second_repair_evidence/sync_docs.py:38-42 | so such a document has exactly one block of the kind, the last one named for it |
| Renaming.RevisionUnseenExactly | docs/project_memory/p12_second_repair_evidence/sync_docs.py:32-41 | no later update can tell that there was a first pass of rename and update, exactly when the rename is spent: none is left in front of the block, and either one in it whose renaming leaves a block, or none from there on |
| Renaming.TwiceIsSeen | docs/project_memory/p12_second_repair_evidence/sync_docs.py:32 | a phrase that stands twice in the first line, whatever it is, is renamed again |
| Workspace.EachArchivedOnce | docs/project_memory/p13_evidence/archive_p12.py:19-32 | a finished archive run gave each document its own block once and touched no other file |
| Workspace.ArchivedContents | docs/project_memory/p13_evidence/archive_p12.py:31-32 | each document then holds its block in front of what it was, or behind its first line with an empty line in front |
| Workspace.ArchivedIsRead | docs/project_memory/p17_acceptance_evidence/archive.py:130-136 | from each document of the tree the auditor reads the archived body, exactly when the first END behind it closes it |
| Workspace.ArchiveOnce | docs/project_memory/p17_acceptance_evidence/archive.py:130-136 | a finished or interrupted archive run, run again, stops at the first document and writes nothing |
| Workspace.RenewalsAreLocal | docs/project_memory/p16_repair_evidence/sync_docs.py:69-74 | each document is what the blocks named for it make of it, repeated names included |
| Custody.IsSourceExactly | docs/project_memory/p18_exception_evidence/run.py:16-19 | the source is what is below src and tests, without a `__pycache__` part and without compiled files |
| Custody.InheritExactly | docs/project_memory/p18_f1_h1_evidence/prepare.py:10-24 | exactly when a stage that inherits may begin, guard by guard, and what it records |
| Custody.ListingExactly | docs/project_memory/p18_storage_final_evidence/prepare.py:10-20 | the same for a stage that starts from Git's list |
| Custody.FreezePassesExactly | docs/project_memory/p18_exception_evidence/freeze.py:5-15 | exactly when a freeze passes, and that it records every source file of the tree with its hash, and no other |
| Custody.AuditPassesExactly | docs/project_memory/p18_exception_evidence/audit.py:22-31 | exactly when an audit passes, guard by guard |
| Custody.AuditFindsSource | docs/project_memory/p18_exception_evidence/audit.py:20-22 | every file below src and tests has, at a passing audit, the hash that was frozen |
| Custody.AuditRecordsExactly | docs/project_memory/p18_exception_evidence/audit.py:72-85 | what it records: the listed files with the hashes it found, and the source it found again |
| Custody.AuditEditExactly | docs/project_memory/p18_exception_evidence/audit.py:22-31 | which contents of a file an audit lets pass, exactly: those that its entries in the source, the protected and the binding pending hashes say |
| Custody.PrepareEditExactly | docs/project_memory/p18_f1_h1_evidence/prepare.py:15-24 | the same for a prepare, which takes the audit file itself as it finds it |
| Custody.FreezeEditExactly | docs/project_memory/p18_exception_evidence/freeze.py:6-9 | the same for a freeze, which asks of an allow-listed source file that it has changed |
| Handover.HeldAtAuditExactly | docs/project_memory/p18_exception_evidence/audit.py:19-31 | an audit holds a file to a hash exactly when a record that it reads from the tree has that hash for it |
| Handover.HeldAtPrepareExactly | docs/project_memory/p18_storage_final_evidence/prepare.py:10-16 | the same for a prepare |
| Handover.RecordsAreNew | docs/project_memory/p18_f1_h1_evidence/prepare.py:10 | no step of a stage can be taken again on a tree that has its record |
| Handover.ProtectedOnCourseExactly | docs/project_memory/p18_storage_final_evidence/prepare.py:10-16 | over any course, every prepare and every audit holds a protected file to its root hash exactly when the baselines they read have the root's entry for it, whatever else is edited |
| Handover.PendingOnCourseExactly | docs/project_memory/p18_f1_h1_evidence/prepare.py:19-24 | over any number of inheriting stages that do not name a pending file and read its own entries as written, it is on record exactly when all of them listed it, with its first hash |
| Handover.PendingFoundOnCourse | docs/project_memory/p18_exception_evidence/audit.py:28-31 | and every audit up to the first that does not list it has found that hash |
| Custody.CarriedExactly | docs/project_memory/p18_exception_evidence/audit.py:72-85 | the same for the chain of records, with what each audit has found |
| Custody.PendingHeldExactly | docs/project_memory/p18_exception_evidence/audit.py:28-31 | the content at an audit is determined exactly when all stages before have listed the file |
| Handover.PendingOnCourse | docs/project_memory/p18_storage_final_evidence/prepare.py:18-20 | with faithful reads and any mixture of stages: a file that the stages before list and none allows to change has its first hash at the audit |
| Handover.SourceOnCourse | docs/project_memory/p18_exception_evidence/audit.py:26-27 | a root source file has its root hash at each audit unless a list names it, and a root test in any case |
| Handover.IdentitiesOnCourse | docs/project_memory/p18_exception_evidence/audit.py:23-25 | no root test identity is lost or repeated over any number of freezes, nor a later one lost while stages inherit |
| Handover.OldRecordsSecured | docs/project_memory/p18_storage_final_evidence/prepare.py:10-16 | a prepare that passes reads the old baseline and the old frozen source as their audit read them, if it reads that audit |
| Handover.WatchedIsFaithful | docs/project_memory/p18_storage_final_evidence/prepare.py:10-16 | so all steps read what was written, if the root's records, each stage's own records between its steps and each audit file until the next prepare are left alone |
| Handover.BaselineCanBeEdited | docs/project_memory/p18_exception_evidence/freeze.py:5 | between prepare and freeze they must be: a protected file edited with its entry passes, whatever it holds |
| Handover.FrozenCanBeEdited | docs/project_memory/p18_exception_evidence/audit.py:19 | and so does the frozen source with other identities, between freeze and audit |
| Handover.AuditCanBeEdited | docs/project_memory/p18_storage_final_evidence/prepare.py:10-15 | and so does a pending file edited with its entry in the audit, before the next prepare |
| Custody.AddedExactly | docs/project_memory/p18_exception_evidence/freeze.py:12-15 | what a stage records as added is the disjoint difference of its identities |
| Custody.DroppedIsCheckedOnce | docs/project_memory/p18_exception_evidence/audit.py:28-31 | the audit of the stage that drops a file from its list still checks it and does not record it |
| Custody.DroppedStaysOut | docs/project_memory/p18_exception_evidence/audit.py:72-80 | over any number of inheriting stages it comes back into no record, and a stage that lists it does not pass, unless it is in a scope |
| Custody.DroppedIsUnseen | docs/project_memory/p18_exception_evidence/audit.py:28-31 | so it can hold anything at every later audit |
| Custody.ListingAdopts | docs/project_memory/p18_storage_final_evidence/prepare.py:18-20 | a stage that starts from Git's list takes an unrecorded file with whatever it holds |
| Custody.UnlistedUnseen | docs/project_memory/p18_exception_evidence/audit.py:73-75 | a file outside all lists can hold anything: the records come out the same |
| Acceptance.GenerateSucceedsExactly | docs/project_memory/p18_acceptance_evidence/audit.py:82-143 | exactly when generate succeeds, guard by guard |
| Acceptance.ForeignFileStops | docs/project_memory/p18_acceptance_evidence/audit.py:142-143 | a new file that Git lists outside the evidence folder stops it |
| Acceptance.VerifyExactly | docs/project_memory/p18_acceptance_evidence/audit.py:50-79 | exactly when verify accepts, guard by guard |
| Acceptance.VerifyFindsSource | docs/project_memory/p18_acceptance_evidence/audit.py:52-54 | every file below src and tests of an accepted tree has the hash that was frozen |
| Acceptance.ReadBasisExactly | docs/project_memory/p18_acceptance_evidence/audit.py:50-52 | which files both modes read |
| Acceptance.GeneratedVerifiesExactly | docs/project_memory/p18_acceptance_evidence/audit.py:72-84 | the audit file that generate wrote is accepted on the tree it left exactly when Git still lists what is excluded |
| Acceptance.VerifyNoticesExactly | docs/project_memory/p18_acceptance_evidence/audit.py:72-84 | when the audit file has its old entries for the files that verify reads, and may differ otherwise: verify accepts another tree exactly when the checked files, the originals and the repository are the same and the audit file is readable, names the same source and the listed paths, and has no untrue entry |
| Acceptance.UnchangedAuditNotices | docs/project_memory/p18_acceptance_evidence/audit.py:72-84 | while the audit file is unchanged: exactly when listing, repository, checked files, originals and all hashed files are the same |
| Acceptance.ProtectedCanBeHidden | docs/project_memory/p18_acceptance_evidence/audit.py:50-59 | edited together with `before.json` and the audit file, a protected file passes with any content |
| Acceptance.AsideEditExactly | docs/project_memory/p18_acceptance_evidence/audit.py:73-77 | which edits of the audit file, and of files that only its entries speak of, leave the verdict: it can be read, names the same source and paths, and has no entry that is untrue |
| Acceptance.EntryWithItsFilePasses | docs/project_memory/p18_acceptance_evidence/audit.py:73-74 | an entry edited with its file passes, and so does a file whose entry is taken out |
| Acceptance.PendingEditIsNoticed | docs/project_memory/p18_acceptance_evidence/audit.py:219-221 | after generate, editing any single pending file but the audit file makes verify fail |
| Acceptance.PendingAccountedFor | docs/project_memory/p18_acceptance_evidence/audit.py:88-102 | every earlier pending file has its earlier hash, or is a named document that holds its earlier self below the new layer |
| Acceptance.LayeredDocumentsPass | docs/project_memory/p18_acceptance_evidence/audit.py:93-102 | documents under separable layers pass the document guard, the decision log too |
| RunRecords.EveryCourseIsRecorded | docs/project_memory/p18_exception_evidence/run.py:34-85 | after any history, a new process under a free label gets its record, and what it does, to the end or to an exception at any point, is what the record says when it closes; no other record is touched |
| RunRecords.SuccessIsAccepted | docs/project_memory/p18_exception_evidence/finalize.py:30-33 | in particular a run that reports success on the frozen source is accepted |
| RunRecords.KillLeavesStarted | docs/project_memory/p18_exception_evidence/run.py:35-39 | a process killed at any point leaves its record STARTED for ever |
| RunRecords.RecordsHaveLabels | docs/project_memory/p18_exception_evidence/run.py:31-32 | every record has a valid label |
| RunRecords.RecordsOnlyClose | docs/project_memory/p18_exception_evidence/run.py:34-39 | in every interleaving a label keeps its owner and start sample, and its record changes once, from STARTED to closed |
| RunRecords.LabelsAreExclusive | docs/project_memory/p18_exception_evidence/run.py:38 | no two live processes work under one label |
| RunRecords.KilledStaysStarted | docs/project_memory/p18_exception_evidence/run.py:35-39 | an open record without a live owner stays as it is and is never accepted |
| RunRecords.AcceptedIsEvidence | docs/project_memory/p18_exception_evidence/finalize.py:30-33 | a record is accepted exactly when its owner's whole history is: began on the frozen source, opened its logs, reported success, left the try, closed on the frozen source |
| RunRecords.AcceptanceIsStable | docs/project_memory/p18_exception_evidence/finalize.py:30-33 | an accepted record stays accepted whatever runs later |
| RunRecords.ExitCodeMeans | docs/project_memory/p18_exception_evidence/run.py:74-85 | exit code 0 implies that the tests were successful, whatever the status |
| RunRecords.FinishedCodeExactly | docs/project_memory/p18_exception_evidence/run.py:74-75 | for a finished run the code is 0 exactly when the tests were successful |
| RunRecords.ZeroUnfinishedExactly | docs/project_memory/p18_exception_evidence/run.py:74-85 | exit code 0 without FINISHED, exactly: the owner reported success, was judged, and raised before it left the try |
| RunRecords.ZeroIsAcceptedExactly | docs/project_memory/p18_exception_evidence/validate_final.py:17-19 | a caller that looks at the exit code alone, on an unchanged source, agrees with the acceptance condition exactly about owners that left the try normally |
| RunRecords.InterruptedCanExitZero | docs/project_memory/p18_exception_evidence/run.py:74-85 | such a run, for every source |
| Validation.Validate | docs/project_memory/p18_exception_evidence/validate_final.py:14-20 | a prefix of good groups has run; the end is reached exactly when all are good; otherwise the first bad one decides, and has run itself unless the source had drifted before it |
| Accounting.FlattenEnumerates | docs/project_memory/p18_exception_evidence/run.py:22-27 | flattening gives every test of the tree once for each place, in tree order |
| Accounting.PassedIsCleanExactly | docs/project_memory/p18_exception_evidence/run.py:68-73 | the pass count is at most the number of clean tests, and equals it exactly when all entries are about tests that ran, skips are distinct and no test failed and was skipped |
| Accounting.ProbeIsLower | docs/project_memory/p18_evidence/control_edge_probe.py:57 | the probe's count never exceeds the runner's, and equals it exactly when no failing test has two records |
| Categories.Categorize | docs/project_memory/p13_evidence/final_audit.py:115-125 | the loop fills one list per category, in listing order |
| Categories.ListsPartition | docs/project_memory/p13_evidence/final_audit.py:117-125 | every pending file is in exactly one list, as often as it is pending |
| Categories.ListsKeepOrder | docs/project_memory/p13_evidence/final_audit.py:117-125 | every list is in the order of the listing |
| Categories.SizesAddUp | docs/project_memory/p13_evidence/final_audit.py:117-125 | the list sizes add up to the pending count |
| Categories.CategoryExactly | docs/project_memory/p13_evidence/final_audit.py:117-125 | the category of every file, by its folder and its name |
| Categories.NamesExclude | docs/project_memory/p13_evidence/final_audit.py:119-123 | the name tests exclude each other and the evidence folder takes precedence |

## Left out

- EndsCommute: asks for a document whose blocks are clean and in place; on any other text FreeCommutes and OrderExactly speak of one update of either sort.
- OrderExactly: is not exact where a START stands twice; FreeCommutes holds there too.
- RevisionUnseenExactly: asks that neither the phrase nor its replacement has a `<`, like the phrases of the scripts, and that the update is a top update.
- PendingOnCourseExactly: concludes equal hashes, for stages that inherit their baseline; for the others PendingOnCourse gives one direction and ListingAdopts the reason.
- VerifyNoticesExactly: asks that the audit files hash the other files that verify reads with the same entries, and that no two contents share a hash; ProtectedCanBeHidden shows why.
- Freeze: takes the allowed list from the baseline that it reads, where `p18_exception_evidence/freeze.py:7` has a list of its own.
- AcceptedIsEvidence: the source is sampled at the start and at the end of a run; nothing is said about the time in between.
- The engine itself: its domain, service and storage modules are not part of this model.
- Git, DOCX, AST, link, whitespace and secret scans, clocks and subprocesses: their results are inputs or are not used.
- HEAD, branch and staging guards of the chain of custody; they are modelled for the acceptance audit only.
- The archive copies of the chain's stages, the cited independent runs and the matrix-to-test maps: equality checks on further inputs.
- The inventory hash of the formal data tree, which also covers its directories, and the version in pyproject.toml.
- Which function the runner's `run.py` really is when an audit executes it: the source sample is taken as correct.
- Loader errors, the selection of tests by prefix and the three ways of discovering them.
- The plain text replacements around the block updates (`p12_evidence/sync_docs.py:37-39`, `p13_evidence/archive_p12.py:34` and `:43`), the line removal in `p12_repair_evidence/sync_docs.py:33`, and the regular-expression form of the row rewriting in `p17_acceptance_evidence/archive.py:144`.
- The report and list texts that the scripts write; the other runners, audits and writers, which repeat these forms.
- Torn writes: a record or document is written in one step.
- Tests that pass unexpectedly are not counted separately; they only make a run unsuccessful.
