/** `sync_paired_end_reads` as the loop it is: one iteration per reference
    header identifier (the `headers` of the original file), the three tests of
    the loop body run one after the other, each reading the pending records as
    the previous test left them, and `next_record` advances a candidate's read
    position by four lines. The output files are the records written to them,
    in write order. */
module SyncReads {
  import opened Fastq
  import opened PairedSync
  import opened SyncProperties

  /** The loop's variables mirror the state `st` of the synchroniser: the
      pending records are the records at the cursors, each read position is
      four lines past its cursor's record, the counters are the state's and
      the outputs are what the state's decisions wrote. */
  ghost predicate Mirrors(
    st: SyncState, readsA: seq<string>, readsB: seq<string>, recsA: seq<Record>, recsB: seq<Record>,
    a: Record, posA: nat, b: Record, posB: nat, counts: Counters,
    syncedA: seq<Record>, syncedB: seq<Record>, orphans: seq<Record>)
  {
    && Holds(readsA, recsA, st.ia, a, posA)
    && Holds(readsB, recsB, st.ib, b, posB)
    && st.counters == counts
    && Wrote(st.log, recsA, recsB, syncedA, syncedB, orphans)
  }

  /** A candidate handle whose cursor is on record `k`: `rec` is that record
      and the read position is where record `k + 1` starts. */
  ghost predicate Holds(lines: seq<string>, recs: seq<Record>, k: nat, rec: Record, pos: nat)
  {
    rec == Pending(recs, k) && pos == Min(4 * (k + 1), |lines|)
  }

  /** The three outputs are what the decisions of `log` wrote. */
  ghost predicate Wrote(log: seq<Decision>, recsA: seq<Record>, recsB: seq<Record>,
                        syncedA: seq<Record>, syncedB: seq<Record>, orphans: seq<Record>)
  {
    syncedA == SyncedA(log, recsA) && syncedB == SyncedB(log, recsB) && orphans == Orphans(log, recsA, recsB)
  }

  /** The first branch keeps the mirror: the orphaned record is appended to
      the orphans and A's next record becomes pending. */
  lemma MirrorsOrphanA(
    st: SyncState, p: nat, readsA: seq<string>, readsB: seq<string>, recsA: seq<Record>, recsB: seq<Record>,
    a: Record, posA: nat, b: Record, posB: nat, totalA: nat, totalB: nat, kept: nat, orphanedA: nat, orphanedB: nat,
    syncedA: seq<Record>, syncedB: seq<Record>, orphans: seq<Record>, a': Record, posA': nat)
    requires Mirrors(st, readsA, readsB, recsA, recsB, a, posA, b, posB,
                     Counters(totalA, totalB, kept, orphanedA, orphanedB), syncedA, syncedB, orphans)
    requires Holds(readsA, recsA, st.ia + 1, a', posA')
    ensures Mirrors(OrphanAStep(st, p), readsA, readsB, recsA, recsB, a', posA', b, posB,
                    Counters(totalA + 1, totalB, kept, orphanedA + 1, orphanedB),
                    syncedA, syncedB, orphans + [a])
  {
    WroteOrphanA(st, p, recsA, recsB, syncedA, syncedB, orphans);
  }

  /** The second branch keeps the mirror, symmetrically. */
  lemma MirrorsOrphanB(
    st: SyncState, p: nat, readsA: seq<string>, readsB: seq<string>, recsA: seq<Record>, recsB: seq<Record>,
    a: Record, posA: nat, b: Record, posB: nat, totalA: nat, totalB: nat, kept: nat, orphanedA: nat, orphanedB: nat,
    syncedA: seq<Record>, syncedB: seq<Record>, orphans: seq<Record>, b': Record, posB': nat)
    requires Mirrors(st, readsA, readsB, recsA, recsB, a, posA, b, posB,
                     Counters(totalA, totalB, kept, orphanedA, orphanedB), syncedA, syncedB, orphans)
    requires Holds(readsB, recsB, st.ib + 1, b', posB')
    ensures Mirrors(OrphanBStep(st, p), readsA, readsB, recsA, recsB, a, posA, b', posB',
                    Counters(totalA, totalB + 1, kept, orphanedA, orphanedB + 1),
                    syncedA, syncedB, orphans + [b])
  {
    WroteOrphanB(st, p, recsA, recsB, syncedA, syncedB, orphans);
  }

  /** The third branch keeps the mirror: the pair is appended to the synced
      outputs and both next records become pending. */
  lemma MirrorsKept(
    st: SyncState, p: nat, readsA: seq<string>, readsB: seq<string>, recsA: seq<Record>, recsB: seq<Record>,
    a: Record, posA: nat, b: Record, posB: nat, totalA: nat, totalB: nat, kept: nat, orphanedA: nat, orphanedB: nat,
    syncedA: seq<Record>, syncedB: seq<Record>, orphans: seq<Record>,
    a': Record, posA': nat, b': Record, posB': nat)
    requires Mirrors(st, readsA, readsB, recsA, recsB, a, posA, b, posB,
                     Counters(totalA, totalB, kept, orphanedA, orphanedB), syncedA, syncedB, orphans)
    requires Holds(readsA, recsA, st.ia + 1, a', posA') && Holds(readsB, recsB, st.ib + 1, b', posB')
    ensures Mirrors(KeepStep(st, p), readsA, readsB, recsA, recsB, a', posA', b', posB',
                    Counters(totalA + 1, totalB + 1, kept + 1, orphanedA, orphanedB),
                    syncedA + [a], syncedB + [b], orphans)
  {
    WroteKept(st, p, recsA, recsB, syncedA, syncedB, orphans);
  }

  /** The outputs after the first branch: A's pending record joins the orphans. */
  lemma WroteOrphanA(st: SyncState, p: nat, recsA: seq<Record>, recsB: seq<Record>,
                     syncedA: seq<Record>, syncedB: seq<Record>, orphans: seq<Record>)
    requires Wrote(st.log, recsA, recsB, syncedA, syncedB, orphans)
    ensures Wrote(OrphanAStep(st, p).log, recsA, recsB, syncedA, syncedB, orphans + [Pending(recsA, st.ia)])
  {
    OrphanAStepWrites(st, p, recsA, recsB);
  }

  /** The outputs after the second branch: B's pending record joins the orphans. */
  lemma WroteOrphanB(st: SyncState, p: nat, recsA: seq<Record>, recsB: seq<Record>,
                     syncedA: seq<Record>, syncedB: seq<Record>, orphans: seq<Record>)
    requires Wrote(st.log, recsA, recsB, syncedA, syncedB, orphans)
    ensures Wrote(OrphanBStep(st, p).log, recsA, recsB, syncedA, syncedB, orphans + [Pending(recsB, st.ib)])
  {
    OrphanBStepWrites(st, p, recsA, recsB);
  }

  /** The outputs after the third branch: the pending pair joins the synced outputs. */
  lemma WroteKept(st: SyncState, p: nat, recsA: seq<Record>, recsB: seq<Record>,
                  syncedA: seq<Record>, syncedB: seq<Record>, orphans: seq<Record>)
    requires Wrote(st.log, recsA, recsB, syncedA, syncedB, orphans)
    ensures Wrote(KeepStep(st, p).log, recsA, recsB,
                  syncedA + [Pending(recsA, st.ia)], syncedB + [Pending(recsB, st.ib)], orphans)
  {
    KeepStepWrites(st, p, recsA, recsB);
  }

  /** At the end of the loop the mirrored state is the synchroniser's state on
      the three files. */
  lemma LoopEnd(original: seq<string>, readsA: seq<string>, readsB: seq<string>, recsA: seq<Record>, recsB: seq<Record>)
    requires ReadsAs(readsA, recsA) && ReadsAs(readsB, recsB)
    ensures recsA == Records(readsA) && recsB == Records(readsB)
    ensures Run(Headers(original)[..|Headers(original)|], recsA, recsB) == Synchronize(original, readsA, readsB)
  {
    ReadsAsRecords(readsA, recsA);
    ReadsAsRecords(readsB, recsB);
    assert Headers(original)[..|Headers(original)|] == Headers(original);
  }

  /** What the synchroniser writes, on the three files: every record read is
      written once, the synced outputs pair records with equal identifiers, and
      each candidate is consumed as a prefix. */
  lemma SynchronizeWrites(original: seq<string>, readsA: seq<string>, readsB: seq<string>)
    ensures var s := Synchronize(original, readsA, readsB);
      var c := s.counters; var recsA := Records(readsA); var recsB := Records(readsB);
      && c.totalA == c.kept + c.orphanedA && c.totalB == c.kept + c.orphanedB
      && |SyncedA(s.log, recsA)| == c.kept && |SyncedB(s.log, recsB)| == c.kept
      && |Orphans(s.log, recsA, recsB)| == c.orphanedA + c.orphanedB
      && (forall i | 0 <= i < c.kept :: Head(SyncedA(s.log, recsA)[i]) == Head(SyncedB(s.log, recsB)[i]))
      && EmittedA(s.log, recsA) == RecordsUpTo(recsA, c.totalA)
      && EmittedB(s.log, recsB) == RecordsUpTo(recsB, c.totalB)
  {
    var hs, recsA, recsB := Headers(original), Records(readsA), Records(readsB);
    Conservation(hs, recsA, recsB);
    ConsumesPrefix(hs, recsA, recsB);
    SyncedOutputsAligned(hs, recsA, recsB);
    OrphansJustified(hs, recsA, recsB);
  }

  /** One iteration of the loop: the three tests for reference header number
      `p`, whose identifier is `header`. */
  method SyncHeader(
    header: string, readsA: seq<string>, readsB: seq<string>,
    a0: Record, posA0: nat, b0: Record, posB0: nat, counts0: Counters,
    syncedA0: seq<Record>, syncedB0: seq<Record>, orphans0: seq<Record>,
    ghost p: nat, ghost recsA: seq<Record>, ghost recsB: seq<Record>, ghost st0: SyncState)
    returns (a: Record, posA: nat, b: Record, posB: nat, counts: Counters,
             syncedA: seq<Record>, syncedB: seq<Record>, orphans: seq<Record>)
    requires ReadsAs(readsA, recsA) && ReadsAs(readsB, recsB)
    requires Mirrors(st0, readsA, readsB, recsA, recsB, a0, posA0, b0, posB0, counts0, syncedA0, syncedB0, orphans0)
    ensures Mirrors(Step(st0, p, header, recsA, recsB), readsA, readsB, recsA, recsB,
                    a, posA, b, posB, counts, syncedA, syncedB, orphans)
  {
    a, posA, b, posB, counts, syncedA, syncedB, orphans := a0, posA0, b0, posB0, counts0, syncedA0, syncedB0, orphans0;
    ghost var st := st0;
    var Counters(totalA, totalB, kept, orphanedA, orphanedB) := counts;

    if header == Head(a) && header != Head(b) {
      ghost var (a1, posA1, orphans1) := (a, posA, orphans);
      orphans := orphans + [a];
      a, posA := NextRecord(readsA, posA, recsA, st.ia + 1);
      MirrorsOrphanA(st, p, readsA, readsB, recsA, recsB, a1, posA1, b, posB,
                     totalA, totalB, kept, orphanedA, orphanedB, syncedA, syncedB, orphans1, a, posA);
      st := OrphanAStep(st, p);
      orphanedA := orphanedA + 1;
      totalA := totalA + 1;
    }
    assert st == TestOrphanA(st0, p, header, recsA, recsB);
    assert Mirrors(st, readsA, readsB, recsA, recsB, a, posA, b, posB,
                   Counters(totalA, totalB, kept, orphanedA, orphanedB), syncedA, syncedB, orphans);
    ghost var mid := st;

    if header == Head(b) && header != Head(a) {
      ghost var (b1, posB1, orphans1) := (b, posB, orphans);
      orphans := orphans + [b];
      b, posB := NextRecord(readsB, posB, recsB, st.ib + 1);
      MirrorsOrphanB(st, p, readsA, readsB, recsA, recsB, a, posA, b1, posB1,
                     totalA, totalB, kept, orphanedA, orphanedB, syncedA, syncedB, orphans1, b, posB);
      st := OrphanBStep(st, p);
      orphanedB := orphanedB + 1;
      totalB := totalB + 1;
    }
    assert st == TestOrphanB(mid, p, header, recsA, recsB);
    assert Mirrors(st, readsA, readsB, recsA, recsB, a, posA, b, posB,
                   Counters(totalA, totalB, kept, orphanedA, orphanedB), syncedA, syncedB, orphans);
    ghost var late := st;

    if header == Head(a) && Head(a) == Head(b) {
      ghost var (a1, posA1, b1, posB1, syncedA1, syncedB1) := (a, posA, b, posB, syncedA, syncedB);
      syncedA := syncedA + [a];
      syncedB := syncedB + [b];
      a, posA := NextRecord(readsA, posA, recsA, st.ia + 1);
      b, posB := NextRecord(readsB, posB, recsB, st.ib + 1);
      MirrorsKept(st, p, readsA, readsB, recsA, recsB, a1, posA1, b1, posB1,
                  totalA, totalB, kept, orphanedA, orphanedB, syncedA1, syncedB1, orphans, a, posA, b, posB);
      st := KeepStep(st, p);
      kept := kept + 1;
      totalA := totalA + 1;
      totalB := totalB + 1;
    }
    assert st == TestKept(late, p, header, recsA, recsB);
    counts := Counters(totalA, totalB, kept, orphanedA, orphanedB);
  }

  /** `sync_paired_end_reads(original, reads_a, reads_b, ...)` on the lines of
      the three input files: returns what it writes to synced_a, synced_b and
      orphans, and the quintuple of counters. */
  method SyncPairedEndReads(original: seq<string>, readsA: seq<string>, readsB: seq<string>)
    returns (syncedA: seq<Record>, syncedB: seq<Record>, orphans: seq<Record>, counts: Counters)
    // the loop computes the synchroniser's function of the three files
    ensures var s := Synchronize(original, readsA, readsB);
      counts == s.counters
      && syncedA == SyncedA(s.log, Records(readsA))
      && syncedB == SyncedB(s.log, Records(readsB))
      && orphans == Orphans(s.log, Records(readsA), Records(readsB))
    // every record read is written exactly once
    ensures counts.totalA == counts.kept + counts.orphanedA
    ensures counts.totalB == counts.kept + counts.orphanedB
    ensures |syncedA| == counts.kept && |syncedB| == counts.kept
    ensures |orphans| == counts.orphanedA + counts.orphanedB
    // the synced outputs pair mates: the i-th records share their identifier
    ensures forall i | 0 <= i < |syncedA| :: Head(syncedA[i]) == Head(syncedB[i])
    // the records of A read so far are the first total_a records of A, and likewise for B
    ensures var s := Synchronize(original, readsA, readsB);
      EmittedA(s.log, Records(readsA)) == RecordsUpTo(Records(readsA), counts.totalA)
      && EmittedB(s.log, Records(readsB)) == RecordsUpTo(Records(readsB), counts.totalB)
  {
    var headers := Headers(original);
    // the records of A and B, known to the loop only as what next_record reads
    assert exists recs :: ReadsAs(readsA, recs) by { ReadsAsRecords(readsA, []); }
    assert exists recs :: ReadsAs(readsB, recs) by { ReadsAsRecords(readsB, []); }
    ghost var recsA: seq<Record> :| ReadsAs(readsA, recsA);
    ghost var recsB: seq<Record> :| ReadsAs(readsB, recsB);
    counts := Counters(0, 0, 0, 0, 0);
    var a, posA, b, posB;
    a, posA := NextRecord(readsA, 0, recsA, 0);
    b, posB := NextRecord(readsB, 0, recsB, 0);
    syncedA, syncedB, orphans := [], [], [];
    ghost var st := START;

    for p := 0 to |headers|
      invariant st == Run(headers[..p], recsA, recsB)
      invariant Mirrors(st, readsA, readsB, recsA, recsB, a, posA, b, posB,
                        counts, syncedA, syncedB, orphans)
    {
      a, posA, b, posB, counts, syncedA, syncedB, orphans :=
        SyncHeader(headers[p], readsA, readsB, a, posA, b, posB, counts, syncedA, syncedB, orphans, p, recsA, recsB, st);
      RunExtend(headers, p, recsA, recsB);
      st := Step(st, p, headers[p], recsA, recsB);
    }

    LoopEnd(original, readsA, readsB, recsA, recsB);
    SynchronizeWrites(original, readsA, readsB);
  }
}
