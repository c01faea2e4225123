/** The synchroniser as a function of its inputs: one step per reference
    header, with the three tests of the loop body applied one after the other
    (three `if`s, not an `elif` chain), five counters, and the decisions taken
    so far, from which the three output files are read off. */
module PairedSync {
  import opened Fastq

  /** Which of the three tests fired: A's record to the orphans, B's record to
      the orphans, or the pair to the synced outputs. */
  datatype Branch = OrphanA | OrphanB | Kept

  /** One classification: the branch that fired, the number `pos` of the
      reference header that made it fire, and the record numbers `ia`, `ib` of
      the pending records of A and B at that moment. */
  datatype Decision = Decision(branch: Branch, pos: nat, ia: nat, ib: nat)

  /** The quintuple returned: (total_a, total_b, kept, orphaned_a, orphaned_b). */
  datatype Counters = Counters(totalA: nat, totalB: nat, kept: nat, orphanedA: nat, orphanedB: nat)

  /** The loop state: the record numbers of the pending records of A and B
      (the cursors), the counters, and the decisions so far, oldest first. */
  datatype SyncState = SyncState(ia: nat, ib: nat, counters: Counters, log: seq<Decision>)

  /** The identifier of the record a cursor on record number `k` holds. */
  function IdOf(recs: seq<Record>, k: nat): string
  {
    Head(Pending(recs, k))
  }

  /** The first `n` records a cursor passes over. */
  function RecordsUpTo(recs: seq<Record>, n: nat): seq<Record>
  {
    seq(n, k requires 0 <= k < n => Pending(recs, k))
  }

  /** Before the loop: both cursors on their first record, all counters zero. */
  const START: SyncState := SyncState(0, 0, Counters(0, 0, 0, 0, 0), [])

  /** A's pending record goes to the orphans; A advances. */
  function OrphanAStep(s: SyncState, p: nat): SyncState
  {
    SyncState(s.ia + 1, s.ib,
      s.counters.(totalA := s.counters.totalA + 1, orphanedA := s.counters.orphanedA + 1),
      s.log + [Decision(OrphanA, p, s.ia, s.ib)])
  }

  /** B's pending record goes to the orphans; B advances. */
  function OrphanBStep(s: SyncState, p: nat): SyncState
  {
    SyncState(s.ia, s.ib + 1,
      s.counters.(totalB := s.counters.totalB + 1, orphanedB := s.counters.orphanedB + 1),
      s.log + [Decision(OrphanB, p, s.ia, s.ib)])
  }

  /** Both pending records go to the synced outputs; both advance. */
  function KeepStep(s: SyncState, p: nat): SyncState
  {
    SyncState(s.ia + 1, s.ib + 1,
      s.counters.(totalA := s.counters.totalA + 1, totalB := s.counters.totalB + 1,
                  kept := s.counters.kept + 1),
      s.log + [Decision(Kept, p, s.ia, s.ib)])
  }

  /** First test of the loop body: the header is A's pending identifier but not B's. */
  function TestOrphanA(s: SyncState, p: nat, h: string, recsA: seq<Record>, recsB: seq<Record>): SyncState
  {
    if h == IdOf(recsA, s.ia) && h != IdOf(recsB, s.ib) then OrphanAStep(s, p) else s
  }

  /** Second test: the header is B's pending identifier but not A's. */
  function TestOrphanB(s: SyncState, p: nat, h: string, recsA: seq<Record>, recsB: seq<Record>): SyncState
  {
    if h == IdOf(recsB, s.ib) && h != IdOf(recsA, s.ia) then OrphanBStep(s, p) else s
  }

  /** Third test: the header, A's and B's pending identifiers are all equal. */
  function TestKept(s: SyncState, p: nat, h: string, recsA: seq<Record>, recsB: seq<Record>): SyncState
  {
    if h == IdOf(recsA, s.ia) && IdOf(recsA, s.ia) == IdOf(recsB, s.ib) then KeepStep(s, p) else s
  }

  /** The loop body for reference header number `p`, whose identifier is `h`.
      Each test reads the cursors as the previous test left them. */
  function Step(s: SyncState, p: nat, h: string, recsA: seq<Record>, recsB: seq<Record>): SyncState
  {
    TestKept(TestOrphanB(TestOrphanA(s, p, h, recsA, recsB), p, h, recsA, recsB), p, h, recsA, recsB)
  }

  /** The state after the loop has consumed the reference headers `hs`. */
  function Run(hs: seq<string>, recsA: seq<Record>, recsB: seq<Record>): SyncState
    decreases |hs|
  {
    if hs == [] then START
    else Step(Run(hs[..|hs| - 1], recsA, recsB), |hs| - 1, hs[|hs| - 1], recsA, recsB)
  }

  /** One more header is one more step. */
  lemma RunExtend(hs: seq<string>, p: nat, recsA: seq<Record>, recsB: seq<Record>)
    requires p < |hs|
    ensures Run(hs[..p + 1], recsA, recsB) == Step(Run(hs[..p], recsA, recsB), p, hs[p], recsA, recsB)
  {
    assert hs[..p + 1][..p] == hs[..p];
  }

  /** `sync_paired_end_reads` on the lines of the three input files. */
  function Synchronize(original: seq<string>, readsA: seq<string>, readsB: seq<string>): SyncState
  {
    Run(Headers(original), Records(readsA), Records(readsB))
  }

  // ---------------------------------------------------------------------------
  // The elif reading of the loop body, used to show that at most one test fires
  // ---------------------------------------------------------------------------

  datatype Outcome = Skipped | Fired(branch: Branch)

  /** Which single branch a header selects, given the identifiers of the two
      pending records, if the tests were an `if`/`elif` chain. */
  function Decide(h: string, idA: string, idB: string): Outcome
  {
    if h == idA && h != idB then Fired(OrphanA)
    else if h == idB && h != idA then Fired(OrphanB)
    else if h == idA && h == idB then Fired(Kept)
    else Skipped
  }

  function Apply(s: SyncState, p: nat, o: Outcome): SyncState
  {
    match o
    case Skipped => s
    case Fired(OrphanA) => OrphanAStep(s, p)
    case Fired(OrphanB) => OrphanBStep(s, p)
    case Fired(Kept) => KeepStep(s, p)
  }

  // ---------------------------------------------------------------------------
  // What the decisions write
  // ---------------------------------------------------------------------------

  /** The records written to synced_a, in order. */
  function SyncedA(log: seq<Decision>, recsA: seq<Record>): seq<Record>
    decreases |log|
  {
    if log == [] then []
    else
      var d := log[|log| - 1];
      SyncedA(log[..|log| - 1], recsA) + (if d.branch == Kept then [Pending(recsA, d.ia)] else [])
  }

  /** The records written to synced_b, in order. */
  function SyncedB(log: seq<Decision>, recsB: seq<Record>): seq<Record>
    decreases |log|
  {
    if log == [] then []
    else
      var d := log[|log| - 1];
      SyncedB(log[..|log| - 1], recsB) + (if d.branch == Kept then [Pending(recsB, d.ib)] else [])
  }

  /** The records written to orphans, A's and B's interleaved, in order. */
  function Orphans(log: seq<Decision>, recsA: seq<Record>, recsB: seq<Record>): seq<Record>
    decreases |log|
  {
    if log == [] then []
    else
      var d := log[|log| - 1];
      Orphans(log[..|log| - 1], recsA, recsB)
      + (match d.branch
         case OrphanA => [Pending(recsA, d.ia)]
         case OrphanB => [Pending(recsB, d.ib)]
         case Kept => [])
  }

  /** The records of A written to orphans, in order. */
  function OrphansA(log: seq<Decision>, recsA: seq<Record>): seq<Record>
    decreases |log|
  {
    if log == [] then []
    else
      var d := log[|log| - 1];
      OrphansA(log[..|log| - 1], recsA) + (if d.branch == OrphanA then [Pending(recsA, d.ia)] else [])
  }

  /** The records of B written to orphans, in order. */
  function OrphansB(log: seq<Decision>, recsB: seq<Record>): seq<Record>
    decreases |log|
  {
    if log == [] then []
    else
      var d := log[|log| - 1];
      OrphansB(log[..|log| - 1], recsB) + (if d.branch == OrphanB then [Pending(recsB, d.ib)] else [])
  }

  /** The first test writes A's pending record to the orphans and nothing else. */
  lemma OrphanAStepWrites(s: SyncState, p: nat, recsA: seq<Record>, recsB: seq<Record>)
    ensures var t := OrphanAStep(s, p);
      && SyncedA(t.log, recsA) == SyncedA(s.log, recsA)
      && SyncedB(t.log, recsB) == SyncedB(s.log, recsB)
      && Orphans(t.log, recsA, recsB) == Orphans(s.log, recsA, recsB) + [Pending(recsA, s.ia)]
      && OrphansA(t.log, recsA) == OrphansA(s.log, recsA) + [Pending(recsA, s.ia)]
      && OrphansB(t.log, recsB) == OrphansB(s.log, recsB)
  {
    assert OrphanAStep(s, p).log[..|s.log|] == s.log;
  }

  /** The second test writes B's pending record to the orphans and nothing else. */
  lemma OrphanBStepWrites(s: SyncState, p: nat, recsA: seq<Record>, recsB: seq<Record>)
    ensures var t := OrphanBStep(s, p);
      && SyncedA(t.log, recsA) == SyncedA(s.log, recsA)
      && SyncedB(t.log, recsB) == SyncedB(s.log, recsB)
      && Orphans(t.log, recsA, recsB) == Orphans(s.log, recsA, recsB) + [Pending(recsB, s.ib)]
      && OrphansA(t.log, recsA) == OrphansA(s.log, recsA)
      && OrphansB(t.log, recsB) == OrphansB(s.log, recsB) + [Pending(recsB, s.ib)]
  {
    assert OrphanBStep(s, p).log[..|s.log|] == s.log;
  }

  /** The third test writes the pending pair to the synced outputs and nothing else. */
  lemma KeepStepWrites(s: SyncState, p: nat, recsA: seq<Record>, recsB: seq<Record>)
    ensures var t := KeepStep(s, p);
      && SyncedA(t.log, recsA) == SyncedA(s.log, recsA) + [Pending(recsA, s.ia)]
      && SyncedB(t.log, recsB) == SyncedB(s.log, recsB) + [Pending(recsB, s.ib)]
      && Orphans(t.log, recsA, recsB) == Orphans(s.log, recsA, recsB)
      && OrphansA(t.log, recsA) == OrphansA(s.log, recsA)
      && OrphansB(t.log, recsB) == OrphansB(s.log, recsB)
  {
    assert KeepStep(s, p).log[..|s.log|] == s.log;
  }

  /** The records of A written anywhere (synced_a or orphans), in write order. */
  function EmittedA(log: seq<Decision>, recsA: seq<Record>): seq<Record>
    decreases |log|
  {
    if log == [] then []
    else
      var d := log[|log| - 1];
      EmittedA(log[..|log| - 1], recsA) + (if d.branch != OrphanB then [Pending(recsA, d.ia)] else [])
  }

  /** The records of B written anywhere (synced_b or orphans), in write order. */
  function EmittedB(log: seq<Decision>, recsB: seq<Record>): seq<Record>
    decreases |log|
  {
    if log == [] then []
    else
      var d := log[|log| - 1];
      EmittedB(log[..|log| - 1], recsB) + (if d.branch != OrphanA then [Pending(recsB, d.ib)] else [])
  }

  /** The decisions that wrote a pair, in order. */
  function KeptLog(log: seq<Decision>): seq<Decision>
    decreases |log|
  {
    if log == [] then []
    else
      var d := log[|log| - 1];
      KeptLog(log[..|log| - 1]) + (if d.branch == Kept then [d] else [])
  }

  /** The decisions that wrote an orphan, in order. */
  function OrphanLog(log: seq<Decision>): seq<Decision>
    decreases |log|
  {
    if log == [] then []
    else
      var d := log[|log| - 1];
      OrphanLog(log[..|log| - 1]) + (if d.branch != Kept then [d] else [])
  }

  /** A decision is justified by header number `d.pos` of `hs`: the test of its
      branch held for the identifiers of the records pending at that moment. */
  predicate Justified(d: Decision, hs: seq<string>, recsA: seq<Record>, recsB: seq<Record>)
  {
    d.pos < |hs| &&
    match d.branch
    case OrphanA => hs[d.pos] == IdOf(recsA, d.ia) && hs[d.pos] != IdOf(recsB, d.ib)
    case OrphanB => hs[d.pos] == IdOf(recsB, d.ib) && hs[d.pos] != IdOf(recsA, d.ia)
    case Kept => hs[d.pos] == IdOf(recsA, d.ia) && hs[d.pos] == IdOf(recsB, d.ib)
  }
}
