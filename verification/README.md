# Re-syncing filtered paired-end FASTQ files

This project models `sync_paired_end_reads` from `preprocessing/scripts/sync.py`.

Two paired-end read files, A and B, have been filtered independently, so some
reads survive in only one of them. The function walks the header identifiers of
the original (unfiltered) file, one per four-line record. It keeps one pending
record of A and one of B. For every reference identifier it runs three tests in
sequence:

1. A's pending record matches and B's does not. A's record goes to `orphans`.
2. B's pending record matches and A's does not. B's record goes to `orphans`.
3. The header and both pending identifiers are equal. The pair goes to
   `synced_a` and `synced_b`.

Every record written is replaced by the next one read from its file. The
function returns the quintuple `(total_a, total_b, kept, orphaned_a, orphaned_b)`.

The model has five modules.

- `Fastq` holds the line-level semantics.
  - A file handle is a sequence of lines plus a read position.
  - `readline` returns `""` at the end of the file and stays there (`ReadLine`).
  - `next_record` is four stripped `readline` calls (`NextRecord`).
  - `str.strip()` uses Python's whitespace set (`Strip`).
  - `split(' ')[0]` splits on U+0020 only (`FirstField`).
  - The `headers` generator is modelled by `Headers`.
  - A trailing partial record is padded with `""` lines, exactly as repeated
    `readline` calls at the end of the file produce.
- `PairedSync` defines the synchroniser as a function of its inputs.
  - `Step` is the loop body: three sequential tests, `TestOrphanA`, `TestOrphanB`
    and `TestKept`, each seeing the cursors the previous one left.
  - `Run` applies `Step` to a sequence of headers.
  - `Synchronize` is `Run` on the three files.
  - The state keeps a log of decisions. `SyncedA`, `SyncedB` and `Orphans` read
    the three outputs off that log; `OrphansA` and `OrphansB` read off the A-part
    and the B-part of `orphans`.
- `SyncProperties` proves what holds for every input, through the loop
  invariant `Consistent`:
  - at most one test fires per header;
  - the counters are conserved;
  - each file is consumed as a prefix, and its records are split between its
    synced output and its part of the orphans;
  - exactly `orphaned_a` of the orphans come from A and `orphaned_b` from B;
  - the synced outputs stay aligned;
  - every orphan is justified by its header.
- `SyncSubsequence` covers the situation the script is designed for. The
  original's identifiers are distinct and nonempty, and both filtered files keep
  their reads in the original's order. Then every read of A and B is read.
  `synced_a` is exactly A's reads whose identifier is also in B, in A's order,
  and A's part of the orphans is exactly A's other reads; likewise for B
  (`SubsequencesRouted`, `FilesRouted`). The counters count the shared and
  one-sided identifiers (`SubsequencesFullyClassified`, `FilesFullyClassified`).
- `SyncReads` is the function itself as a loop.
  - `SyncPairedEndReads` reads records with `NextRecord` and runs one
    `SyncHeader` call per reference header. It is proved to return the counters
    of `Synchronize` and to write its three outputs.
  - `SyncHeader` is the loop body with its three `if`s and its counter updates.
    It is proved to take the loop variables from a state to `Step` of that state.

The docstring says Illumina old-style headers (`@ID/1`, `@ID/2`) are supported,
but the code only takes the text before the first space. It never removes a
`/1` or `/2` suffix. The model follows the code: `Fastq.OldStyleMatesDiffer`
shows that such mates get different identifiers and are therefore never paired.

## Model

| member | source | states |
|---|---|---|
| `Fastq.LStrip` | preprocessing/scripts/sync.py:59 | The leading half of `strip()`: drops whitespace characters from the front. `Fastq.LStripDrops` proves what it removes and keeps. |
| `Fastq.RStrip` | preprocessing/scripts/sync.py:59 | The trailing half of `strip()`: drops whitespace characters from the back. `Fastq.RStripDrops` and `Fastq.RStripKeeps` prove what it removes and keeps. |
| `Fastq.Strip` | preprocessing/scripts/sync.py:59 | `str.strip()` over Python's whitespace set. `Fastq.StripTrims` and `Fastq.StripIdempotent` prove its meaning. |
| `Fastq.FirstField` | preprocessing/scripts/sync.py:62-63 | `split(' ')[0]`: the text before the first U+0020, or all of it. `Fastq.FirstFieldSplits` and `Fastq.FirstFieldUnique` characterise it exactly. |
| `Fastq.Identifier` | preprocessing/scripts/sync.py:65 | The generator's rule for one line, `strip().split(' ')[0]`. `Fastq.HeaderOfLine` and `Fastq.IdentifierOfToken` state what it yields. |
| `Fastq.Head` | preprocessing/scripts/sync.py:61-63 | `head(record)`: the first space-separated field of a record's stripped header line. `Fastq.RecordHead` ties it to the generator's rule. |
| `Fastq.ReadLine` | preprocessing/scripts/sync.py:59 | `readline()` returns the line at the read position and moves past it. At the end of the file it returns `""` and the position stays put. |
| `Fastq.RecordAt` | preprocessing/scripts/sync.py:58-59 | The record on lines `4k` to `4k+3`, each stripped, with `""` for lines past the end. `Fastq.RecordAtIsPending` and `Fastq.ReadAtRecordStart` connect it to `next_record`. |
| `Fastq.Records` | preprocessing/scripts/sync.py:58-59 | The records of a file, one per started four-line group. `Fastq.ReadsAsRecords` proves it is what repeated `next_record` calls read. |
| `Fastq.NextRecord` | preprocessing/scripts/sync.py:58-59 | Called where record `k` starts, it returns record `k` of the file, or the all-`""` record once the file is exhausted. It leaves the read position where record `k + 1` starts, or at the end of the file. |
| `Fastq.ReadAtRecordStart` | preprocessing/scripts/sync.py:58-59 | Four stripped reads from line `min(4k, n)` yield record `k`, including the padding past the end of the file. |
| `Fastq.RecordAtIsPending` | preprocessing/scripts/sync.py:58-59 | The `k`-th four-line group is the pending record for cursor `k`: a real record inside the file, `EMPTY_RECORD` beyond it. Record `k` exists exactly when line `4k` exists. |
| `Fastq.ReadsAsRecords` | preprocessing/scripts/sync.py:58-59 | `Records(lines)` is what repeated `next_record` calls read from a file, and it is the only such sequence. |
| `Fastq.EmptyRecordHead` | preprocessing/scripts/sync.py:59-63 | An exhausted file yields a record whose identifier is `""`. |
| `Fastq.StripEmpty` | preprocessing/scripts/sync.py:59-63 | An empty line strips to itself and has the empty identifier. |
| `Fastq.LStripDrops` | preprocessing/scripts/sync.py:59 | Left-stripping removes a prefix made only of whitespace. What remains is a suffix of the input that is empty or starts with a non-whitespace character. |
| `Fastq.RStripDrops` | preprocessing/scripts/sync.py:59 | Right-stripping removes a suffix made only of whitespace. What remains is a prefix of the input that is empty or ends with a non-whitespace character. |
| `Fastq.RStripKeeps` | preprocessing/scripts/sync.py:59 | Right-stripping keeps every character up to the last non-whitespace one. |
| `Fastq.StripTrims` | preprocessing/scripts/sync.py:59 | `strip()` returns a contiguous slice of its input with only whitespace around it, and that slice neither starts nor ends with whitespace. |
| `Fastq.StripIdempotent` | preprocessing/scripts/sync.py:59 | Stripping an already stripped line changes nothing. |
| `Fastq.FirstFieldSplits` | preprocessing/scripts/sync.py:61-63 | `split(' ')[0]` is a space-free prefix of its input that ends at the first space or at the end. |
| `Fastq.FirstFieldUnique` | preprocessing/scripts/sync.py:61-63 | Any space-free prefix ending at a space or at the end equals `split(' ')[0]`, so the characterisation is exact. |
| `Fastq.HeaderOfLine` | preprocessing/scripts/sync.py:65 | The `k`-th generated header is `strip().split(' ')[0]` of line `4k` of the original, for every line index divisible by 4. |
| `Fastq.Headers` | preprocessing/scripts/sync.py:65 | The generator yields one identifier per started four-line group, `ceil(n / 4)` in all. |
| `Fastq.RecordHead` | preprocessing/scripts/sync.py:59-65 | `head` of a record read from a file equals the generator's identifier rule applied to that record's header line, so both sides compare like with like. |
| `Fastq.IdentifierOfToken` | preprocessing/scripts/sync.py:61-65 | A whitespace-free token is its own identifier, whether the line ends there or continues after a space, as new-style `@ID 1:N:0:...` headers do. |
| `Fastq.OldStyleMatesDiffer` | preprocessing/scripts/sync.py:61-65 | Old-style mates `ID/1` and `ID/2` keep their suffixes and get different identifiers. |
| `PairedSync.OrphanAStep` | preprocessing/scripts/sync.py:74-77 | The first branch's effect: A's pending record is written to orphans, A advances, and `orphaned_a` and `total_a` grow by one. |
| `PairedSync.OrphanBStep` | preprocessing/scripts/sync.py:80-83 | The second branch's effect: B's pending record is written to orphans, B advances, and `orphaned_b` and `total_b` grow by one. |
| `PairedSync.KeepStep` | preprocessing/scripts/sync.py:86-91 | The third branch's effect: the pair is written to the synced outputs, both advance, and `kept`, `total_a` and `total_b` grow by one. |
| `PairedSync.TestOrphanA` | preprocessing/scripts/sync.py:73-77 | The first `if`: the header equals A's pending identifier and differs from B's. `SyncProperties.DecideMatchesTests` states when it fires. |
| `PairedSync.TestOrphanB` | preprocessing/scripts/sync.py:79-83 | The second `if`, evaluated on the cursors the first left: the header equals B's pending identifier and differs from A's. |
| `PairedSync.TestKept` | preprocessing/scripts/sync.py:85-91 | The third `if`, evaluated on the cursors the first two left: the header and both pending identifiers are equal. |
| `PairedSync.Step` | preprocessing/scripts/sync.py:71-91 | One loop iteration: the three tests in sequence. `SyncProperties.StepFiresAtMostOnce` proves that at most one of them fires. |
| `PairedSync.Run` | preprocessing/scripts/sync.py:67-91 | The loop from zeroed counters and the first pending records, one `Step` per reference header. `PairedSync.RunExtend` and `SyncProperties.RunConsistent` state its properties. |
| `PairedSync.Synchronize` | preprocessing/scripts/sync.py:37-93 | `sync_paired_end_reads` on the lines of the three files. `SyncReads.SyncPairedEndReads` is proved to compute it. |
| `PairedSync.SyncedA` | preprocessing/scripts/sync.py:86 | The records written to `synced_a`, in write order. |
| `PairedSync.SyncedB` | preprocessing/scripts/sync.py:87 | The records written to `synced_b`, in write order. |
| `PairedSync.Orphans` | preprocessing/scripts/sync.py:73-83 | The records written to `orphans`, A's and B's interleaved in write order. |
| `PairedSync.OrphansA` | preprocessing/scripts/sync.py:74 | The A-records written to `orphans`, in write order. |
| `PairedSync.OrphansB` | preprocessing/scripts/sync.py:80 | The B-records written to `orphans`, in write order. |
| `PairedSync.RunExtend` | preprocessing/scripts/sync.py:71-91 | Consuming one more reference header is exactly one more loop-body step. |
| `PairedSync.OrphanAStepWrites` | preprocessing/scripts/sync.py:73-77 | The first branch appends A's pending record to the orphans and to their A-part. It leaves both synced outputs and the B-part of the orphans unchanged. |
| `PairedSync.OrphanBStepWrites` | preprocessing/scripts/sync.py:79-83 | The second branch appends B's pending record to the orphans and to their B-part. It leaves both synced outputs and the A-part of the orphans unchanged. |
| `PairedSync.KeepStepWrites` | preprocessing/scripts/sync.py:85-91 | The third branch appends A's pending record to `synced_a` and B's to `synced_b`, and leaves the orphans and both their parts unchanged. |
| `SyncProperties.StepFiresAtMostOnce` | preprocessing/scripts/sync.py:73-91 | The three sequential `if`s act as an `if`/`elif` chain decided on the records pending before the step, so at most one branch fires per header. |
| `SyncProperties.DecideMatchesTests` | preprocessing/scripts/sync.py:73-91 | Each branch is selected exactly when its test holds, and nothing is selected exactly when the header matches neither pending identifier. |
| `SyncProperties.StepNoOpIff` | preprocessing/scripts/sync.py:71-91 | A header leaves the state unchanged if and only if it matches neither pending identifier. |
| `SyncProperties.ExhaustedCursorNeverMatches` | preprocessing/scripts/sync.py:73-91 | For A and for B: a nonempty header never advances an exhausted file nor counts a read from it. |
| `SyncProperties.StepKeepsConsistent` | preprocessing/scripts/sync.py:71-91 | One loop iteration preserves the invariant `Consistent`: cursors equal totals, counters are conserved, the log accounts for the counters and outputs, and every decision is justified and ordered. |
| `SyncProperties.ApplyKeepsConsistent` | preprocessing/scripts/sync.py:73-91 | The single branch a header selects preserves the invariant, including when no branch fires. |
| `SyncProperties.FiredKeepsConsistent` | preprocessing/scripts/sync.py:73-91 | Any branch that fires with its test true preserves the invariant for the headers extended by this one. |
| `SyncProperties.OrphanAKeepsConsistent` | preprocessing/scripts/sync.py:73-77 | The first branch preserves the invariant: `total_a` and `orphaned_a` each grow by one, and A's record is emitted next. |
| `SyncProperties.OrphanBKeepsConsistent` | preprocessing/scripts/sync.py:79-83 | The second branch preserves the invariant: `total_b` and `orphaned_b` each grow by one, and B's record is emitted next. |
| `SyncProperties.KeepKeepsConsistent` | preprocessing/scripts/sync.py:85-91 | The third branch preserves the invariant: `kept`, `total_a` and `total_b` each grow by one, and both records are emitted next. |
| `SyncProperties.LogStep` | preprocessing/scripts/sync.py:73-91 | Take any state whose log gains one decision, justified at the next header, and whose counters and cursors move by one for the records that decision writes. That state keeps the log ordered and justified, and the log still accounts for the kept and orphan counts. Each file's emitted records are still its first `total` records. |
| `SyncProperties.LogLater` | preprocessing/scripts/sync.py:71-91 | A header at which no branch fires keeps the log-part of the invariant. |
| `SyncProperties.RunConsistent` | preprocessing/scripts/sync.py:67-91 | The invariant holds with all counters at zero before the loop, and after every header. |
| `SyncProperties.Conservation` | preprocessing/scripts/sync.py:67-93 | After any number of headers, and so at return, `total_a == kept + orphaned_a` and `total_b == kept + orphaned_b`. Each total is the number of records read past. |
| `SyncProperties.ConsumesPrefix` | preprocessing/scripts/sync.py:69-91 | The A-records written anywhere, in write order, are exactly the first `total_a` records of A, and likewise for B. No record is skipped, duplicated or reordered. Those first `total_a` records are, as a multiset, `synced_a` together with A's part of the orphans; likewise for B. |
| `SyncProperties.OutputsPartitionEmitted` | preprocessing/scripts/sync.py:73-91 | Every record written lands in exactly one output. As multisets, the A-records written are `synced_a` plus A's part of the orphans, likewise for B. `orphans` is its A-part plus its B-part. |
| `SyncProperties.EmittedAPartition` | preprocessing/scripts/sync.py:73-91 | The A-records written are split, as a multiset, between `synced_a` and A's part of the orphans. |
| `SyncProperties.EmittedBPartition` | preprocessing/scripts/sync.py:73-91 | The B-records written are split, as a multiset, between `synced_b` and B's part of the orphans. |
| `SyncProperties.OrphansPartition` | preprocessing/scripts/sync.py:73-83 | `orphans` holds, as a multiset, exactly its A-records and its B-records. |
| `SyncProperties.OrphansSplit` | preprocessing/scripts/sync.py:73-83 | Exactly `orphaned_a` of the records in `orphans` come from A and exactly `orphaned_b` from B, and together they are all of `orphans`. |
| `SyncProperties.SyncedOutputsAligned` | preprocessing/scripts/sync.py:85-91 | `synced_a` and `synced_b` each receive `kept` records. Their `i`-th records were written at the same header, in reference order, and both carry that header's identifier. |
| `SyncProperties.OrphansJustified` | preprocessing/scripts/sync.py:73-83 | `orphans` receives `orphaned_a + orphaned_b` records. Each is an A-record that matched its header while B's pending record did not, or the reverse. |
| `SyncProperties.CursorsStayInFile` | preprocessing/scripts/sync.py:71-91 | If every reference identifier is nonempty, no read count ever exceeds the number of records in its file. |
| `SyncSubsequence.MatchIffPresent` | preprocessing/scripts/sync.py:73-91 | Under the ordering assumption, the pending record matches a header exactly when that identifier occurs in the file at all. |
| `SyncSubsequence.RunFollowsEmbedding` | preprocessing/scripts/sync.py:71-91 | After `n` headers each cursor has passed exactly the reads placed before header `n`, and the counters count those headers by where they survive. |
| `SyncSubsequence.StepFollowsEmbedding` | preprocessing/scripts/sync.py:71-91 | One loop iteration preserves the cursor-tracking and counting facts above. |
| `SyncSubsequence.ApplyFollowsEmbedding` | preprocessing/scripts/sync.py:73-91 | The branch a header selects advances exactly the cursors whose reads sit at that header, and counts the header as shared, A-only or B-only. |
| `SyncSubsequence.KeepInAppend` | preprocessing/scripts/sync.py:73-91 | One more read goes to the kept filter when its identifier is in the other file, and to the dropped filter when it is not. |
| `SyncSubsequence.RoutedSideNext` | preprocessing/scripts/sync.py:73-91 | If a file's synced output and orphan part are the kept and dropped filters of its first `n` reads, then adding read `n` to the output its identifier selects gives the filters of its first `n + 1` reads. |
| `SyncSubsequence.RoutedOrphanA` | preprocessing/scripts/sync.py:73-77 | When A's pending identifier is absent from B, the first branch keeps both outputs equal to the filters of the reads passed. |
| `SyncSubsequence.RoutedOrphanB` | preprocessing/scripts/sync.py:79-83 | When B's pending identifier is absent from A, the second branch keeps both outputs equal to the filters of the reads passed. |
| `SyncSubsequence.RoutedKept` | preprocessing/scripts/sync.py:85-91 | When both pending identifiers occur in the other file, the third branch keeps both outputs equal to the filters of the reads passed. |
| `SyncSubsequence.ApplyRoutes` | preprocessing/scripts/sync.py:73-91 | Under the ordering assumption, the branch a header selects keeps each synced output and orphan part equal to the filters of the reads passed. |
| `SyncSubsequence.RunRoutes` | preprocessing/scripts/sync.py:71-91 | After any number of headers, `synced_a` holds the reads passed in A whose identifier is in B, and A's part of the orphans holds the rest; likewise for B. |
| `SyncSubsequence.SubsequencesRouted` | preprocessing/scripts/sync.py:67-93 | At return, `synced_a` is exactly A's reads whose identifier is in B, in A's order, and A's part of the orphans is exactly A's other reads; likewise for B. |
| `SyncSubsequence.RecordsUpToAll` | preprocessing/scripts/sync.py:67-93 | A cursor past every record of a file has passed all of them. |
| `SyncSubsequence.FilesRouted` | preprocessing/scripts/sync.py:18-21 | On the three files, under the docstring's premise: `synced_a` and `synced_b` hold the reads whose identifier survives in both files, in file order. Each file's part of the orphans holds its other reads. |
| `SyncSubsequence.SubsequencesFullyClassified` | preprocessing/scripts/sync.py:67-93 | Every record of both files is read. `kept` counts the identifiers present in both files, `orphaned_a` those only in A and `orphaned_b` those only in B. |
| `SyncSubsequence.FilesFullyClassified` | preprocessing/scripts/sync.py:18-21 | The docstring's premise holds when both filtered files keep the original's order and the original's identifiers are distinct and nonempty. Then the returned counters are the record counts of A and B and the shared and one-sided identifier counts. |
| `SyncReads.MirrorsOrphanA` | preprocessing/scripts/sync.py:73-77 | The first branch's writes and counter updates on the loop variables track the first branch's step of the model state. |
| `SyncReads.MirrorsOrphanB` | preprocessing/scripts/sync.py:79-83 | The second branch's writes and counter updates on the loop variables track the second branch's step of the model state. |
| `SyncReads.MirrorsKept` | preprocessing/scripts/sync.py:85-91 | The third branch's writes, reads and counter updates on the loop variables track the third branch's step of the model state. |
| `SyncReads.WroteOrphanA` | preprocessing/scripts/sync.py:74 | Writing A's pending record to the orphans keeps the three written outputs equal to those of the first branch's step. |
| `SyncReads.WroteOrphanB` | preprocessing/scripts/sync.py:80 | Writing B's pending record to the orphans keeps the three written outputs equal to those of the second branch's step. |
| `SyncReads.WroteKept` | preprocessing/scripts/sync.py:86-87 | Writing the pair to `synced_a` and `synced_b` keeps the three written outputs equal to those of the third branch's step. |
| `SyncReads.LoopEnd` | preprocessing/scripts/sync.py:71-93 | The records the loop reads are each file's records, and after the last header the loop's state is the synchroniser's state on the three files. |
| `SyncReads.SyncHeader` | preprocessing/scripts/sync.py:71-91 | One iteration of the loop (the three `if`s, their writes, the `next_record` calls and the counter updates) takes the loop variables from the state before the header to `Step` of it. |
| `SyncReads.SynchronizeWrites` | preprocessing/scripts/sync.py:37-93 | On the three files, every record read is written exactly once. The synced outputs hold `kept` pairs with equal identifiers, the orphans hold `orphaned_a + orphaned_b` records, and each file is consumed as a prefix. |
| `SyncReads.SyncPairedEndReads` | preprocessing/scripts/sync.py:37-93 | The function returns the synchroniser's counters and writes its three outputs. The counters are conserved, the synced outputs are aligned by identifier, and each file's written records are its first `total` records. |

## Left out

- `_open` (gzip or plain file opening) is not modelled; opening files is I/O.
- The `__main__` block is not modelled: argument checking, the usage message,
  printing the counts and the `IOError` handler are command-line I/O.
- Writing a record is modelled as appending the record (its four stripped
  lines) to a sequence. The serialisation by `'\n'.join` and `print` is not
  modelled.
- Splitting a file into lines and decoding its bytes are not modelled. A file
  is given as its sequence of lines, and a handle as that sequence plus a read
  position.
- The `headers` generator is lazy, but `Headers` computes all identifiers up
  front. The original file is read only by the generator, so the values and
  their order are the same.
- The `@todo` warning, for candidates that still have lines after the original
  is exhausted, is not implemented in the source either. `Fastq.NumRecords`
  and `SyncProperties.ConsumesPrefix` expose what is left unread.
- The docstring's claim that old-style `/1`, `/2` headers are supported is
  not modelled, because the code does not implement it (see
  `Fastq.OldStyleMatesDiffer`).
- `Fastq.NextRecord` takes ghost parameters for the file's records and the
  record number. This record view of the handle adds nothing to the computed
  values.
