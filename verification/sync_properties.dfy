/** What the synchroniser guarantees for every input: one branch at most per
    header, counter conservation after every header, each candidate consumed as
    a prefix, aligned synced outputs, and orphans that are justified. */
module SyncProperties {
  import opened Fastq
  import opened PairedSync

  // ---------------------------------------------------------------------------
  // One header
  // ---------------------------------------------------------------------------

  /** The three sequential tests behave as an `if`/`elif` chain: the one step
      equals applying the single branch `Decide` selects from the identifiers of
      the records pending before the step. */
  lemma StepFiresAtMostOnce(s: SyncState, p: nat, h: string, recsA: seq<Record>, recsB: seq<Record>)
    ensures Step(s, p, h, recsA, recsB) == Apply(s, p, Decide(h, IdOf(recsA, s.ia), IdOf(recsB, s.ib)))
    ensures |Step(s, p, h, recsA, recsB).log| <= |s.log| + 1
  {
  }

  /** `Decide` picks each branch exactly when its test holds on the pending identifiers. */
  lemma DecideMatchesTests(h: string, idA: string, idB: string)
    ensures Decide(h, idA, idB) == Fired(OrphanA) <==> h == idA && h != idB
    ensures Decide(h, idA, idB) == Fired(OrphanB) <==> h == idB && h != idA
    ensures Decide(h, idA, idB) == Fired(Kept) <==> h == idA && h == idB
    ensures Decide(h, idA, idB) == Skipped <==> h != idA && h != idB
  {
  }

  /** A header equal to neither pending identifier changes nothing (cursors,
      counters, outputs), and a header equal to either changes the state. */
  lemma StepNoOpIff(s: SyncState, p: nat, h: string, recsA: seq<Record>, recsB: seq<Record>)
    ensures Step(s, p, h, recsA, recsB) == s <==> h != IdOf(recsA, s.ia) && h != IdOf(recsB, s.ib)
  {
    StepFiresAtMostOnce(s, p, h, recsA, recsB);
    var t := Step(s, p, h, recsA, recsB);
    if h == IdOf(recsA, s.ia) || h == IdOf(recsB, s.ib) {
      assert |t.log| == |s.log| + 1;
    }
  }

  /** An exhausted candidate has identifier "", so a nonempty header never
      advances it nor counts a read from it; this holds for A and for B. */
  lemma ExhaustedCursorNeverMatches(s: SyncState, p: nat, h: string, recsA: seq<Record>, recsB: seq<Record>)
    requires h != ""
    ensures |recsA| <= s.ia ==>
      Step(s, p, h, recsA, recsB).ia == s.ia
      && Step(s, p, h, recsA, recsB).counters.totalA == s.counters.totalA
    ensures |recsB| <= s.ib ==>
      Step(s, p, h, recsA, recsB).ib == s.ib
      && Step(s, p, h, recsA, recsB).counters.totalB == s.counters.totalB
  {
    EmptyRecordHead();
    StepFiresAtMostOnce(s, p, h, recsA, recsB);
  }

  // ---------------------------------------------------------------------------
  // The loop invariant
  // ---------------------------------------------------------------------------

  /** Positions of the decisions grow strictly: one decision per header at most,
      in reference order. */
  predicate Increasing(log: seq<Decision>)
  {
    forall i, j | 0 <= i < j < |log| :: log[i].pos < log[j].pos
  }

  /** What holds after the headers `hs` have been processed. */
  ghost predicate Consistent(s: SyncState, hs: seq<string>, recsA: seq<Record>, recsB: seq<Record>)
  {
    && s.ia == s.counters.totalA && s.ib == s.counters.totalB
    && s.counters.totalA == s.counters.kept + s.counters.orphanedA
    && s.counters.totalB == s.counters.kept + s.counters.orphanedB
    && LogAgrees(s, hs, recsA, recsB)
  }

  /** The log holds `kept` pair decisions and `orphaned_a + orphaned_b` orphan
      decisions, has written the first `ia` records of A and the first `ib` of
      B, and every decision in it is justified by its header, in reference order. */
  ghost predicate LogAgrees(s: SyncState, hs: seq<string>, recsA: seq<Record>, recsB: seq<Record>)
  {
    && |KeptLog(s.log)| == s.counters.kept
    && |OrphanLog(s.log)| == s.counters.orphanedA + s.counters.orphanedB
    && EmittedA(s.log, recsA) == RecordsUpTo(recsA, s.ia)
    && EmittedB(s.log, recsB) == RecordsUpTo(recsB, s.ib)
    && (forall d | d in s.log :: Justified(d, hs, recsA, recsB))
    && Increasing(s.log)
  }

  /** One loop iteration keeps the invariant. */
  lemma StepKeepsConsistent(s: SyncState, hs: seq<string>, h: string, recsA: seq<Record>, recsB: seq<Record>)
    requires Consistent(s, hs, recsA, recsB)
    ensures Consistent(Step(s, |hs|, h, recsA, recsB), hs + [h], recsA, recsB)
  {
    StepFiresAtMostOnce(s, |hs|, h, recsA, recsB);
    ApplyKeepsConsistent(s, hs, h, Decide(h, IdOf(recsA, s.ia), IdOf(recsB, s.ib)), recsA, recsB);
  }

  /** The branch a header selects keeps the invariant. */
  lemma ApplyKeepsConsistent(s: SyncState, hs: seq<string>, h: string, o: Outcome, recsA: seq<Record>, recsB: seq<Record>)
    requires Consistent(s, hs, recsA, recsB)
    requires o == Decide(h, IdOf(recsA, s.ia), IdOf(recsB, s.ib))
    ensures Consistent(Apply(s, |hs|, o), hs + [h], recsA, recsB)
  {
    DecideMatchesTests(h, IdOf(recsA, s.ia), IdOf(recsB, s.ib));
    match o
    case Skipped =>
      LogLater(s, hs, h, recsA, recsB);
    case Fired(branch) =>
      FiredKeepsConsistent(s, hs, h, branch, recsA, recsB);
  }

  /** A firing branch keeps the invariant: it appends a justified decision and
      moves the counters of the cursors it advances. */
  lemma FiredKeepsConsistent(s: SyncState, hs: seq<string>, h: string, branch: Branch, recsA: seq<Record>, recsB: seq<Record>)
    requires Consistent(s, hs, recsA, recsB)
    requires Justified(Decision(branch, |hs|, s.ia, s.ib), hs + [h], recsA, recsB)
    ensures Consistent(Apply(s, |hs|, Fired(branch)), hs + [h], recsA, recsB)
  {
    match branch
    case OrphanA => OrphanAKeepsConsistent(s, hs, h, recsA, recsB);
    case OrphanB => OrphanBKeepsConsistent(s, hs, h, recsA, recsB);
    case Kept => KeepKeepsConsistent(s, hs, h, recsA, recsB);
  }

  /** The first test firing keeps the invariant. */
  lemma OrphanAKeepsConsistent(s: SyncState, hs: seq<string>, h: string, recsA: seq<Record>, recsB: seq<Record>)
    requires Consistent(s, hs, recsA, recsB)
    requires Justified(Decision(OrphanA, |hs|, s.ia, s.ib), hs + [h], recsA, recsB)
    ensures Consistent(OrphanAStep(s, |hs|), hs + [h], recsA, recsB)
  {
    LogStep(s, OrphanAStep(s, |hs|), hs, h, Decision(OrphanA, |hs|, s.ia, s.ib), recsA, recsB);
  }

  /** The second test firing keeps the invariant. */
  lemma OrphanBKeepsConsistent(s: SyncState, hs: seq<string>, h: string, recsA: seq<Record>, recsB: seq<Record>)
    requires Consistent(s, hs, recsA, recsB)
    requires Justified(Decision(OrphanB, |hs|, s.ia, s.ib), hs + [h], recsA, recsB)
    ensures Consistent(OrphanBStep(s, |hs|), hs + [h], recsA, recsB)
  {
    LogStep(s, OrphanBStep(s, |hs|), hs, h, Decision(OrphanB, |hs|, s.ia, s.ib), recsA, recsB);
  }

  /** The third test firing keeps the invariant. */
  lemma KeepKeepsConsistent(s: SyncState, hs: seq<string>, h: string, recsA: seq<Record>, recsB: seq<Record>)
    requires Consistent(s, hs, recsA, recsB)
    requires Justified(Decision(Kept, |hs|, s.ia, s.ib), hs + [h], recsA, recsB)
    ensures Consistent(KeepStep(s, |hs|), hs + [h], recsA, recsB)
  {
    LogStep(s, KeepStep(s, |hs|), hs, h, Decision(Kept, |hs|, s.ia, s.ib), recsA, recsB);
  }

  /** A state whose log is the old log plus a decision `d` taken at the next
      header on the pending records, with the counters and cursors of the
      records `d` writes moved by one, keeps the log-part of the invariant. */
  lemma LogStep(s: SyncState, t: SyncState, hs: seq<string>, h: string, d: Decision, recsA: seq<Record>, recsB: seq<Record>)
    requires LogAgrees(s, hs, recsA, recsB)
    requires d.pos == |hs| && d.ia == s.ia && d.ib == s.ib && Justified(d, hs + [h], recsA, recsB)
    requires t.log == s.log + [d]
    requires t.counters.kept == s.counters.kept + (if d.branch == Kept then 1 else 0)
    requires t.counters.orphanedA + t.counters.orphanedB
          == s.counters.orphanedA + s.counters.orphanedB + (if d.branch != Kept then 1 else 0)
    requires t.ia == s.ia + (if d.branch != OrphanB then 1 else 0)
    requires t.ib == s.ib + (if d.branch != OrphanA then 1 else 0)
    ensures LogAgrees(t, hs + [h], recsA, recsB)
  {
    JustifiedLater(s.log, hs, h, recsA, recsB);
    AppendDecision(s.log, d, recsA, recsB);
    AppendIncreasing(s.log, d);
    RecordsUpToNext(recsA, s.ia);
    RecordsUpToNext(recsB, s.ib);
  }

  /** A header that writes nothing keeps the log-part of the invariant. */
  lemma LogLater(s: SyncState, hs: seq<string>, h: string, recsA: seq<Record>, recsB: seq<Record>)
    requires LogAgrees(s, hs, recsA, recsB)
    ensures LogAgrees(s, hs + [h], recsA, recsB)
  {
    JustifiedLater(s.log, hs, h, recsA, recsB);
  }

  /** Decisions justified by the headers `hs` stay justified when a header is added. */
  lemma JustifiedLater(log: seq<Decision>, hs: seq<string>, h: string, recsA: seq<Record>, recsB: seq<Record>)
    requires forall d | d in log :: Justified(d, hs, recsA, recsB)
    ensures forall d | d in log :: Justified(d, hs + [h], recsA, recsB) && d.pos < |hs|
  {
    forall d | d in log ensures Justified(d, hs + [h], recsA, recsB) && d.pos < |hs| {
      assert Justified(d, hs, recsA, recsB);
      assert (hs + [h])[d.pos] == hs[d.pos];
    }
  }

  /** A decision appended to the log adds its record(s) at the end of what it writes. */
  lemma AppendDecision(log: seq<Decision>, d: Decision, recsA: seq<Record>, recsB: seq<Record>)
    ensures KeptLog(log + [d]) == KeptLog(log) + (if d.branch == Kept then [d] else [])
    ensures OrphanLog(log + [d]) == OrphanLog(log) + (if d.branch != Kept then [d] else [])
    ensures EmittedA(log + [d], recsA) == EmittedA(log, recsA) + (if d.branch != OrphanB then [Pending(recsA, d.ia)] else [])
    ensures EmittedB(log + [d], recsB) == EmittedB(log, recsB) + (if d.branch != OrphanA then [Pending(recsB, d.ib)] else [])
  {
    assert (log + [d])[..|log|] == log;
  }

  /** A decision at a later header than all logged ones keeps the log increasing. */
  lemma AppendIncreasing(log: seq<Decision>, d: Decision)
    requires Increasing(log) && forall e | e in log :: e.pos < d.pos
    ensures Increasing(log + [d])
  {
    var l := log + [d];
    forall i, j | 0 <= i < j < |l| ensures l[i].pos < l[j].pos {
      if j < |log| {
        assert l[i] == log[i] && l[j] == log[j];
      } else {
        assert l[i] in log;
      }
    }
  }

  /** The first `n + 1` records are the first `n` and then record `n`. */
  lemma RecordsUpToNext(recs: seq<Record>, n: nat)
    ensures RecordsUpTo(recs, n) + [Pending(recs, n)] == RecordsUpTo(recs, n + 1)
  {
    assert forall k | 0 <= k < n + 1 :: (RecordsUpTo(recs, n) + [Pending(recs, n)])[k] == Pending(recs, k);
  }

  /** The invariant holds before the loop and after every header. */
  lemma {:induction false} RunConsistent(hs: seq<string>, recsA: seq<Record>, recsB: seq<Record>)
    ensures Consistent(Run(hs, recsA, recsB), hs, recsA, recsB)
    decreases |hs|
  {
    if hs == [] {
      assert RecordsUpTo(recsA, 0) == [] && RecordsUpTo(recsB, 0) == [];
    } else {
      var init := hs[..|hs| - 1];
      RunConsistent(init, recsA, recsB);
      StepKeepsConsistent(Run(init, recsA, recsB), init, hs[|hs| - 1], recsA, recsB);
      assert init + [hs[|hs| - 1]] == hs;
    }
  }

  // ---------------------------------------------------------------------------
  // The candidate properties, for any headers and any candidate files
  // ---------------------------------------------------------------------------

  /** Conservation after every prefix of the reference headers (every
      loop iteration) and therefore at return. */
  lemma Conservation(hs: seq<string>, recsA: seq<Record>, recsB: seq<Record>)
    ensures var c := Run(hs, recsA, recsB).counters;
      c.totalA == c.kept + c.orphanedA && c.totalB == c.kept + c.orphanedB
    ensures Run(hs, recsA, recsB).ia == Run(hs, recsA, recsB).counters.totalA
    ensures Run(hs, recsA, recsB).ib == Run(hs, recsA, recsB).counters.totalB
  {
    RunConsistent(hs, recsA, recsB);
  }

  /** The A-records written (to synced_a or orphans), in write order, are
      exactly the first total_a records of A, and those records are exactly
      what synced_a and the A-part of orphans hold; likewise for B. */
  lemma ConsumesPrefix(hs: seq<string>, recsA: seq<Record>, recsB: seq<Record>)
    ensures var s := Run(hs, recsA, recsB);
      EmittedA(s.log, recsA) == RecordsUpTo(recsA, s.counters.totalA)
      && EmittedB(s.log, recsB) == RecordsUpTo(recsB, s.counters.totalB)
    ensures var s := Run(hs, recsA, recsB);
      multiset(SyncedA(s.log, recsA)) + multiset(OrphansA(s.log, recsA))
        == multiset(RecordsUpTo(recsA, s.counters.totalA))
      && multiset(SyncedB(s.log, recsB)) + multiset(OrphansB(s.log, recsB))
        == multiset(RecordsUpTo(recsB, s.counters.totalB))
  {
    RunConsistent(hs, recsA, recsB);
    OutputsPartitionEmitted(Run(hs, recsA, recsB).log, recsA, recsB);
  }

  /** Every record a log writes lands in exactly one output: the A-records
      written are synced_a's and the A-part of orphans together, likewise for
      B, and orphans is its A-part and its B-part together. */
  lemma OutputsPartitionEmitted(log: seq<Decision>, recsA: seq<Record>, recsB: seq<Record>)
    ensures multiset(EmittedA(log, recsA)) == multiset(SyncedA(log, recsA)) + multiset(OrphansA(log, recsA))
    ensures multiset(EmittedB(log, recsB)) == multiset(SyncedB(log, recsB)) + multiset(OrphansB(log, recsB))
    ensures multiset(Orphans(log, recsA, recsB)) == multiset(OrphansA(log, recsA)) + multiset(OrphansB(log, recsB))
  {
    EmittedAPartition(log, recsA);
    EmittedBPartition(log, recsB);
    OrphansPartition(log, recsA, recsB);
  }

  /** The A-records a log writes are split between synced_a and orphans. */
  lemma {:induction false} EmittedAPartition(log: seq<Decision>, recsA: seq<Record>)
    ensures multiset(EmittedA(log, recsA)) == multiset(SyncedA(log, recsA)) + multiset(OrphansA(log, recsA))
    decreases |log|
  {
    if log != [] {
      var init, d := log[..|log| - 1], log[|log| - 1];
      EmittedAPartition(init, recsA);
      var r := [Pending(recsA, d.ia)];
      assert EmittedA(log, recsA) == EmittedA(init, recsA) + (if d.branch != OrphanB then r else []);
      assert SyncedA(log, recsA) == SyncedA(init, recsA) + (if d.branch == Kept then r else []);
      assert OrphansA(log, recsA) == OrphansA(init, recsA) + (if d.branch == OrphanA then r else []);
    }
  }

  /** The B-records a log writes are split between synced_b and orphans. */
  lemma {:induction false} EmittedBPartition(log: seq<Decision>, recsB: seq<Record>)
    ensures multiset(EmittedB(log, recsB)) == multiset(SyncedB(log, recsB)) + multiset(OrphansB(log, recsB))
    decreases |log|
  {
    if log != [] {
      var init, d := log[..|log| - 1], log[|log| - 1];
      EmittedBPartition(init, recsB);
      var r := [Pending(recsB, d.ib)];
      assert EmittedB(log, recsB) == EmittedB(init, recsB) + (if d.branch != OrphanA then r else []);
      assert SyncedB(log, recsB) == SyncedB(init, recsB) + (if d.branch == Kept then r else []);
      assert OrphansB(log, recsB) == OrphansB(init, recsB) + (if d.branch == OrphanB then r else []);
    }
  }

  /** orphans holds the A-orphans and the B-orphans, interleaved. */
  lemma {:induction false} OrphansPartition(log: seq<Decision>, recsA: seq<Record>, recsB: seq<Record>)
    ensures multiset(Orphans(log, recsA, recsB)) == multiset(OrphansA(log, recsA)) + multiset(OrphansB(log, recsB))
    decreases |log|
  {
    if log != [] {
      var init, d := log[..|log| - 1], log[|log| - 1];
      OrphansPartition(init, recsA, recsB);
      var ra, rb := [Pending(recsA, d.ia)], [Pending(recsB, d.ib)];
      assert OrphansA(log, recsA) == OrphansA(init, recsA) + (if d.branch == OrphanA then ra else []);
      assert OrphansB(log, recsB) == OrphansB(init, recsB) + (if d.branch == OrphanB then rb else []);
      assert Orphans(log, recsA, recsB) == Orphans(init, recsA, recsB)
        + (if d.branch == OrphanA then ra else if d.branch == OrphanB then rb else []);
    }
  }

  /** Of the records in orphans, exactly orphaned_a come from A and exactly
      orphaned_b from B. */
  lemma OrphansSplit(hs: seq<string>, recsA: seq<Record>, recsB: seq<Record>)
    ensures var s := Run(hs, recsA, recsB);
      |OrphansA(s.log, recsA)| == s.counters.orphanedA
      && |OrphansB(s.log, recsB)| == s.counters.orphanedB
      && multiset(Orphans(s.log, recsA, recsB)) == multiset(OrphansA(s.log, recsA)) + multiset(OrphansB(s.log, recsB))
  {
    var s := Run(hs, recsA, recsB);
    RunConsistent(hs, recsA, recsB);
    KeptLogFacts(s.log, recsA, recsB);
    OutputsPartitionEmitted(s.log, recsA, recsB);
    assert |EmittedA(s.log, recsA)| == |SyncedA(s.log, recsA)| + |OrphansA(s.log, recsA)| by {
      assert |multiset(EmittedA(s.log, recsA))| == |multiset(SyncedA(s.log, recsA)) + multiset(OrphansA(s.log, recsA))|;
    }
    assert |EmittedB(s.log, recsB)| == |SyncedB(s.log, recsB)| + |OrphansB(s.log, recsB)| by {
      assert |multiset(EmittedB(s.log, recsB))| == |multiset(SyncedB(s.log, recsB)) + multiset(OrphansB(s.log, recsB))|;
    }
  }

  /** Facts about the kept decisions of any log whose positions grow. */
  lemma {:induction false} KeptLogFacts(log: seq<Decision>, recsA: seq<Record>, recsB: seq<Record>)
    requires Increasing(log)
    ensures |SyncedA(log, recsA)| == |KeptLog(log)| && |SyncedB(log, recsB)| == |KeptLog(log)|
    ensures forall i | 0 <= i < |KeptLog(log)| ::
      KeptLog(log)[i] in log && KeptLog(log)[i].branch == Kept
      && SyncedA(log, recsA)[i] == Pending(recsA, KeptLog(log)[i].ia)
      && SyncedB(log, recsB)[i] == Pending(recsB, KeptLog(log)[i].ib)
    ensures Increasing(KeptLog(log))
    decreases |log|
  {
    if log != [] {
      var init := log[..|log| - 1];
      var d := log[|log| - 1];
      assert Increasing(init);
      KeptLogFacts(init, recsA, recsB);
      var k := KeptLog(log);
      forall i | 0 <= i < |k| ensures k[i] in log {
        if i < |KeptLog(init)| {
          assert k[i] in init;
        }
      }
      forall i, j | 0 <= i < j < |k| ensures k[i].pos < k[j].pos {
        if j == |KeptLog(init)| {
          assert k[i] in init;
        }
      }
    }
  }

  /** Facts about the orphan decisions of any log. */
  lemma {:induction false} OrphanLogFacts(log: seq<Decision>, recsA: seq<Record>, recsB: seq<Record>)
    ensures |Orphans(log, recsA, recsB)| == |OrphanLog(log)|
    ensures forall i | 0 <= i < |OrphanLog(log)| ::
      OrphanLog(log)[i] in log && OrphanLog(log)[i].branch != Kept
      && Orphans(log, recsA, recsB)[i] ==
           (if OrphanLog(log)[i].branch == OrphanA then Pending(recsA, OrphanLog(log)[i].ia)
            else Pending(recsB, OrphanLog(log)[i].ib))
    decreases |log|
  {
    if log != [] {
      var init := log[..|log| - 1];
      OrphanLogFacts(init, recsA, recsB);
      var o := OrphanLog(log);
      forall i | 0 <= i < |o| ensures o[i] in log {
        if i < |OrphanLog(init)| {
          assert o[i] in init;
        }
      }
    }
  }

  /** synced_a and synced_b receive kept records each; their i-th records were
      written together, in reference order, and both have the identifier of the
      reference header that triggered the write. */
  lemma SyncedOutputsAligned(hs: seq<string>, recsA: seq<Record>, recsB: seq<Record>)
    ensures var s := Run(hs, recsA, recsB); var k := KeptLog(s.log);
      |SyncedA(s.log, recsA)| == s.counters.kept && |SyncedB(s.log, recsB)| == s.counters.kept
      && |k| == s.counters.kept
      && (forall i | 0 <= i < |k| ::
            k[i].pos < |hs|
            && SyncedA(s.log, recsA)[i] == Pending(recsA, k[i].ia)
            && SyncedB(s.log, recsB)[i] == Pending(recsB, k[i].ib)
            && Head(SyncedA(s.log, recsA)[i]) == hs[k[i].pos]
            && Head(SyncedB(s.log, recsB)[i]) == hs[k[i].pos])
      && Increasing(k)
  {
    var s := Run(hs, recsA, recsB);
    RunConsistent(hs, recsA, recsB);
    KeptLogFacts(s.log, recsA, recsB);
    var k := KeptLog(s.log);
    forall i | 0 <= i < |k| ensures Justified(k[i], hs, recsA, recsB) {
    }
  }

  /** orphans receives orphaned_a + orphaned_b records; each is an A-record
      whose identifier equalled its header while B's pending identifier did
      not, or the reverse. */
  lemma OrphansJustified(hs: seq<string>, recsA: seq<Record>, recsB: seq<Record>)
    ensures var s := Run(hs, recsA, recsB); var o := OrphanLog(s.log); var out := Orphans(s.log, recsA, recsB);
      |out| == s.counters.orphanedA + s.counters.orphanedB && |o| == |out|
      && (forall i | 0 <= i < |o| ::
            o[i].pos < |hs|
            && ((o[i].branch == OrphanA && out[i] == Pending(recsA, o[i].ia)
                 && Head(out[i]) == hs[o[i].pos] && IdOf(recsB, o[i].ib) != hs[o[i].pos])
             || (o[i].branch == OrphanB && out[i] == Pending(recsB, o[i].ib)
                 && Head(out[i]) == hs[o[i].pos] && IdOf(recsA, o[i].ia) != hs[o[i].pos])))
  {
    var s := Run(hs, recsA, recsB);
    RunConsistent(hs, recsA, recsB);
    OrphanLogFacts(s.log, recsA, recsB);
    var o := OrphanLog(s.log);
    forall i | 0 <= i < |o| ensures Justified(o[i], hs, recsA, recsB) {
    }
  }

  /** When every reference identifier is nonempty, no cursor moves past the end
      of its file: an exhausted candidate stays exhausted and silent. */
  lemma {:induction false} CursorsStayInFile(hs: seq<string>, recsA: seq<Record>, recsB: seq<Record>)
    requires forall p | 0 <= p < |hs| :: hs[p] != ""
    ensures Run(hs, recsA, recsB).ia <= |recsA|
    ensures Run(hs, recsA, recsB).ib <= |recsB|
    decreases |hs|
  {
    if hs != [] {
      var init := hs[..|hs| - 1];
      var h := hs[|hs| - 1];
      CursorsStayInFile(init, recsA, recsB);
      var s := Run(init, recsA, recsB);
      StepFiresAtMostOnce(s, |init|, h, recsA, recsB);
      EmptyRecordHead();
    }
  }
}
