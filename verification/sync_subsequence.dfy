/** The situation the synchroniser is designed for: both filtered files keep
    their reads in the order of the original file, and the original's
    identifiers are distinct and nonempty. Then the reference headers work as
    a clock: every read is classified at its own header, both filtered files
    are read to the end, and the counters count identifiers by where they
    survive. */
module SyncSubsequence {
  import opened Fastq
  import opened PairedSync
  import opened SyncProperties

  /** The identifiers of a sequence of records, in order. */
  function Ids(recs: seq<Record>): seq<string>
  {
    seq(|recs|, k requires 0 <= k < |recs| => Head(recs[k]))
  }

  /** `at` places the identifiers `ids` in `hs` in order: `ids` is an
      order-preserving subsequence of `hs`. */
  ghost predicate Embeds(ids: seq<string>, hs: seq<string>, at: seq<nat>)
  {
    && |at| == |ids|
    && (forall k | 0 <= k < |at| :: at[k] < |hs| && hs[at[k]] == ids[k])
    && (forall k, l | 0 <= k < l < |at| :: at[k] < at[l])
  }

  ghost predicate DistinctNonEmpty(hs: seq<string>)
  {
    && (forall p | 0 <= p < |hs| :: hs[p] != "")
    && (forall p, q | 0 <= p < q < |hs| :: hs[p] != hs[q])
  }

  /** How many of the headers `hs` occur in both `x` and `y`. */
  function CountShared(hs: seq<string>, x: seq<string>, y: seq<string>): nat
    decreases |hs|
  {
    if hs == [] then 0
    else CountShared(hs[..|hs| - 1], x, y) + (if hs[|hs| - 1] in x && hs[|hs| - 1] in y then 1 else 0)
  }

  /** How many of the headers `hs` occur in `x` but not in `y`. */
  function CountOnly(hs: seq<string>, x: seq<string>, y: seq<string>): nat
    decreases |hs|
  {
    if hs == [] then 0
    else CountOnly(hs[..|hs| - 1], x, y) + (if hs[|hs| - 1] in x && hs[|hs| - 1] !in y then 1 else 0)
  }

  /** A cursor `c` on records placed at `at` has passed exactly the records
      placed before header `n`. */
  ghost predicate Tracks(c: nat, at: seq<nat>, n: nat)
  {
    c <= |at| && (forall k | 0 <= k < c :: at[k] < n) && (c < |at| ==> n <= at[c])
  }

  /** At header `p`, the pending record matches exactly when the header's
      identifier occurs among the candidate's identifiers at all. */
  lemma MatchIffPresent(hs: seq<string>, recs: seq<Record>, at: seq<nat>, c: nat, p: nat)
    requires DistinctNonEmpty(hs) && Embeds(Ids(recs), hs, at) && Tracks(c, at, p) && p < |hs|
    ensures IdOf(recs, c) == hs[p] <==> hs[p] in Ids(recs)
    ensures IdOf(recs, c) == hs[p] ==> c < |at| && at[c] == p
    ensures IdOf(recs, c) != hs[p] ==> Tracks(c, at, p + 1)
  {
    var ids := Ids(recs);
    if c < |at| {
      assert IdOf(recs, c) == ids[c] == hs[at[c]];
      if hs[p] in ids {
        var k :| 0 <= k < |ids| && ids[k] == hs[p];
        assert hs[at[k]] == hs[p];
      }
    } else {
      EmptyRecordHead();
    }
  }

  /** The cursor of a candidate that matched at header `p` tracks header `p + 1`. */
  lemma AdvanceTracks(at: seq<nat>, c: nat, p: nat)
    requires Tracks(c, at, p) && c < |at| && at[c] == p
    requires forall k, l | 0 <= k < l < |at| :: at[k] < at[l]
    ensures Tracks(c + 1, at, p + 1)
  {
    if c + 1 < |at| {
      assert at[c] < at[c + 1];
    }
  }

  /** After the first `n` headers both cursors have passed exactly the records
      placed before header `n`, and the counters count those headers by where
      their identifiers survive. */
  lemma {:induction false} RunFollowsEmbedding(
    hs: seq<string>, recsA: seq<Record>, recsB: seq<Record>, atA: seq<nat>, atB: seq<nat>, n: nat)
    requires DistinctNonEmpty(hs) && Embeds(Ids(recsA), hs, atA) && Embeds(Ids(recsB), hs, atB)
    requires n <= |hs|
    ensures var s := Run(hs[..n], recsA, recsB);
      Tracks(s.ia, atA, n) && Tracks(s.ib, atB, n)
      && s.counters.kept == CountShared(hs[..n], Ids(recsA), Ids(recsB))
      && s.counters.orphanedA == CountOnly(hs[..n], Ids(recsA), Ids(recsB))
      && s.counters.orphanedB == CountOnly(hs[..n], Ids(recsB), Ids(recsA))
    decreases n
  {
    if n > 0 {
      var p := n - 1;
      RunFollowsEmbedding(hs, recsA, recsB, atA, atB, p);
      RunExtend(hs, p, recsA, recsB);
      StepFollowsEmbedding(hs, recsA, recsB, atA, atB, Run(hs[..p], recsA, recsB), p);
    }
  }

  /** One step at header `p` keeps the cursors tracking the embeddings and the
      counters counting the headers seen so far. */
  lemma StepFollowsEmbedding(
    hs: seq<string>, recsA: seq<Record>, recsB: seq<Record>, atA: seq<nat>, atB: seq<nat>, s: SyncState, p: nat)
    requires DistinctNonEmpty(hs) && Embeds(Ids(recsA), hs, atA) && Embeds(Ids(recsB), hs, atB)
    requires p < |hs| && Tracks(s.ia, atA, p) && Tracks(s.ib, atB, p)
    requires s.counters.kept == CountShared(hs[..p], Ids(recsA), Ids(recsB))
    requires s.counters.orphanedA == CountOnly(hs[..p], Ids(recsA), Ids(recsB))
    requires s.counters.orphanedB == CountOnly(hs[..p], Ids(recsB), Ids(recsA))
    ensures var t := Step(s, p, hs[p], recsA, recsB);
      Tracks(t.ia, atA, p + 1) && Tracks(t.ib, atB, p + 1)
      && t.counters.kept == CountShared(hs[..p + 1], Ids(recsA), Ids(recsB))
      && t.counters.orphanedA == CountOnly(hs[..p + 1], Ids(recsA), Ids(recsB))
      && t.counters.orphanedB == CountOnly(hs[..p + 1], Ids(recsB), Ids(recsA))
  {
    assert hs[..p + 1][..p] == hs[..p];
    StepFiresAtMostOnce(s, p, hs[p], recsA, recsB);
    ApplyFollowsEmbedding(hs, recsA, recsB, atA, atB, s, p,
                          Decide(hs[p], IdOf(recsA, s.ia), IdOf(recsB, s.ib)));
  }

  /** The branch header `p` selects moves the cursors past the records placed
      at `p` and counts the header where its identifier survives. */
  lemma ApplyFollowsEmbedding(
    hs: seq<string>, recsA: seq<Record>, recsB: seq<Record>, atA: seq<nat>, atB: seq<nat>,
    s: SyncState, p: nat, o: Outcome)
    requires DistinctNonEmpty(hs) && Embeds(Ids(recsA), hs, atA) && Embeds(Ids(recsB), hs, atB)
    requires p < |hs| && Tracks(s.ia, atA, p) && Tracks(s.ib, atB, p)
    requires o == Decide(hs[p], IdOf(recsA, s.ia), IdOf(recsB, s.ib))
    ensures var t := Apply(s, p, o);
      Tracks(t.ia, atA, p + 1) && Tracks(t.ib, atB, p + 1)
      && t.counters.kept == s.counters.kept + (if hs[p] in Ids(recsA) && hs[p] in Ids(recsB) then 1 else 0)
      && t.counters.orphanedA == s.counters.orphanedA + (if hs[p] in Ids(recsA) && hs[p] !in Ids(recsB) then 1 else 0)
      && t.counters.orphanedB == s.counters.orphanedB + (if hs[p] in Ids(recsB) && hs[p] !in Ids(recsA) then 1 else 0)
  {
    MatchIffPresent(hs, recsA, atA, s.ia, p);
    MatchIffPresent(hs, recsB, atB, s.ib, p);
    if IdOf(recsA, s.ia) == hs[p] {
      AdvanceTracks(atA, s.ia, p);
    }
    if IdOf(recsB, s.ib) == hs[p] {
      AdvanceTracks(atB, s.ib, p);
    }
  }

  // ---------------------------------------------------------------------------
  // Which records go where
  // ---------------------------------------------------------------------------

  /** The records of `recs` whose identifier occurs in `ids`, in order. */
  function KeepIn(recs: seq<Record>, ids: seq<string>): seq<Record>
    decreases |recs|
  {
    if recs == [] then []
    else KeepIn(recs[..|recs| - 1], ids) + (if Head(recs[|recs| - 1]) in ids then [recs[|recs| - 1]] else [])
  }

  /** The records of `recs` whose identifier does not occur in `ids`, in order. */
  function DropIn(recs: seq<Record>, ids: seq<string>): seq<Record>
    decreases |recs|
  {
    if recs == [] then []
    else DropIn(recs[..|recs| - 1], ids) + (if Head(recs[|recs| - 1]) !in ids then [recs[|recs| - 1]] else [])
  }

  /** One more record joins exactly one of the two filters. */
  lemma KeepInAppend(recs: seq<Record>, r: Record, ids: seq<string>)
    ensures KeepIn(recs + [r], ids) == KeepIn(recs, ids) + (if Head(r) in ids then [r] else [])
    ensures DropIn(recs + [r], ids) == DropIn(recs, ids) + (if Head(r) !in ids then [r] else [])
  {
    assert (recs + [r])[..|recs|] == recs;
  }

  /** The synced outputs hold the records read so far whose identifier occurs
      in the other file; the A- and B-parts of orphans hold those whose
      identifier does not. */
  ghost predicate Routed(s: SyncState, recsA: seq<Record>, recsB: seq<Record>)
  {
    && RoutedSide(SyncedA(s.log, recsA), OrphansA(s.log, recsA), recsA, s.ia, Ids(recsB))
    && RoutedSide(SyncedB(s.log, recsB), OrphansB(s.log, recsB), recsB, s.ib, Ids(recsA))
  }

  /** Of the first `n` records of one candidate, `synced` holds those whose
      identifier occurs in `other` and `orphans` the rest, both in order. */
  ghost predicate RoutedSide(synced: seq<Record>, orphans: seq<Record>, recs: seq<Record>, n: nat, other: seq<string>)
  {
    synced == KeepIn(RecordsUpTo(recs, n), other) && orphans == DropIn(RecordsUpTo(recs, n), other)
  }

  /** Writing the next record of a candidate to the output its identifier's
      presence in the other file calls for keeps that candidate routed. */
  lemma RoutedSideNext(synced: seq<Record>, orphans: seq<Record>, recs: seq<Record>, n: nat, other: seq<string>)
    requires RoutedSide(synced, orphans, recs, n, other)
    ensures var r := Pending(recs, n);
      RoutedSide(synced + (if Head(r) in other then [r] else []),
                 orphans + (if Head(r) !in other then [r] else []), recs, n + 1, other)
  {
    RecordsUpToNext(recs, n);
    KeepInAppend(RecordsUpTo(recs, n), Pending(recs, n), other);
  }

  /** Orphaning A's pending record, absent from B, keeps the routing. */
  lemma RoutedOrphanA(s: SyncState, p: nat, recsA: seq<Record>, recsB: seq<Record>)
    requires Routed(s, recsA, recsB) && Head(Pending(recsA, s.ia)) !in Ids(recsB)
    ensures Routed(OrphanAStep(s, p), recsA, recsB)
  {
    OrphanAStepWrites(s, p, recsA, recsB);
    RoutedSideNext(SyncedA(s.log, recsA), OrphansA(s.log, recsA), recsA, s.ia, Ids(recsB));
  }

  /** Orphaning B's pending record, absent from A, keeps the routing. */
  lemma RoutedOrphanB(s: SyncState, p: nat, recsA: seq<Record>, recsB: seq<Record>)
    requires Routed(s, recsA, recsB) && Head(Pending(recsB, s.ib)) !in Ids(recsA)
    ensures Routed(OrphanBStep(s, p), recsA, recsB)
  {
    OrphanBStepWrites(s, p, recsA, recsB);
    RoutedSideNext(SyncedB(s.log, recsB), OrphansB(s.log, recsB), recsB, s.ib, Ids(recsA));
  }

  /** Keeping a pair whose identifiers occur in both files keeps the routing. */
  lemma RoutedKept(s: SyncState, p: nat, recsA: seq<Record>, recsB: seq<Record>)
    requires Routed(s, recsA, recsB)
    requires Head(Pending(recsA, s.ia)) in Ids(recsB) && Head(Pending(recsB, s.ib)) in Ids(recsA)
    ensures Routed(KeepStep(s, p), recsA, recsB)
  {
    KeepStepWrites(s, p, recsA, recsB);
    RoutedSideNext(SyncedA(s.log, recsA), OrphansA(s.log, recsA), recsA, s.ia, Ids(recsB));
    RoutedSideNext(SyncedB(s.log, recsB), OrphansB(s.log, recsB), recsB, s.ib, Ids(recsA));
  }

  /** The branch header `p` selects sends each record it writes to the output
      its identifier's presence in the other file calls for. */
  lemma ApplyRoutes(
    hs: seq<string>, recsA: seq<Record>, recsB: seq<Record>, atA: seq<nat>, atB: seq<nat>,
    s: SyncState, p: nat, o: Outcome)
    requires DistinctNonEmpty(hs) && Embeds(Ids(recsA), hs, atA) && Embeds(Ids(recsB), hs, atB)
    requires p < |hs| && Tracks(s.ia, atA, p) && Tracks(s.ib, atB, p) && Routed(s, recsA, recsB)
    requires o == Decide(hs[p], IdOf(recsA, s.ia), IdOf(recsB, s.ib))
    ensures Routed(Apply(s, p, o), recsA, recsB)
  {
    MatchIffPresent(hs, recsA, atA, s.ia, p);
    MatchIffPresent(hs, recsB, atB, s.ib, p);
    DecideMatchesTests(hs[p], IdOf(recsA, s.ia), IdOf(recsB, s.ib));
    match o
    case Skipped =>
    case Fired(OrphanA) => RoutedOrphanA(s, p, recsA, recsB);
    case Fired(OrphanB) => RoutedOrphanB(s, p, recsA, recsB);
    case Fired(Kept) => RoutedKept(s, p, recsA, recsB);
  }

  /** After the first `n` headers the outputs hold the records read so far,
      routed by presence in the other file. */
  lemma {:induction false} RunRoutes(
    hs: seq<string>, recsA: seq<Record>, recsB: seq<Record>, atA: seq<nat>, atB: seq<nat>, n: nat)
    requires DistinctNonEmpty(hs) && Embeds(Ids(recsA), hs, atA) && Embeds(Ids(recsB), hs, atB)
    requires n <= |hs|
    ensures Routed(Run(hs[..n], recsA, recsB), recsA, recsB)
    decreases n
  {
    if n == 0 {
      assert RecordsUpTo(recsA, 0) == [] && RecordsUpTo(recsB, 0) == [];
    } else {
      var p := n - 1;
      var s := Run(hs[..p], recsA, recsB);
      RunRoutes(hs, recsA, recsB, atA, atB, p);
      RunFollowsEmbedding(hs, recsA, recsB, atA, atB, p);
      RunExtend(hs, p, recsA, recsB);
      StepFiresAtMostOnce(s, p, hs[p], recsA, recsB);
      ApplyRoutes(hs, recsA, recsB, atA, atB, s, p, Decide(hs[p], IdOf(recsA, s.ia), IdOf(recsB, s.ib)));
    }
  }

  /** Every record of A and B is read, so `synced_a` is exactly A's records
      whose identifier is also in B, in A's order; the A-part of orphans is
      exactly A's records whose identifier is not in B; and likewise for B. */
  lemma SubsequencesRouted(hs: seq<string>, recsA: seq<Record>, recsB: seq<Record>, atA: seq<nat>, atB: seq<nat>)
    requires DistinctNonEmpty(hs) && Embeds(Ids(recsA), hs, atA) && Embeds(Ids(recsB), hs, atB)
    ensures var s := Run(hs, recsA, recsB);
      && SyncedA(s.log, recsA) == KeepIn(recsA, Ids(recsB))
      && OrphansA(s.log, recsA) == DropIn(recsA, Ids(recsB))
      && SyncedB(s.log, recsB) == KeepIn(recsB, Ids(recsA))
      && OrphansB(s.log, recsB) == DropIn(recsB, Ids(recsA))
  {
    RunRoutes(hs, recsA, recsB, atA, atB, |hs|);
    assert hs[..|hs|] == hs;
    var s := Run(hs, recsA, recsB);
    SubsequencesFullyClassified(hs, recsA, recsB, atA, atB);
    Conservation(hs, recsA, recsB);
    assert s.ia == |recsA| && s.ib == |recsB|;
    RecordsUpToAll(recsA);
    RecordsUpToAll(recsB);
  }

  /** A cursor past every record has passed all of them. */
  lemma RecordsUpToAll(recs: seq<Record>)
    ensures RecordsUpTo(recs, |recs|) == recs
  {
  }

  /** The same on the three files. */
  lemma FilesRouted(original: seq<string>, readsA: seq<string>, readsB: seq<string>, atA: seq<nat>, atB: seq<nat>)
    requires DistinctNonEmpty(Headers(original))
    requires Embeds(Ids(Records(readsA)), Headers(original), atA)
    requires Embeds(Ids(Records(readsB)), Headers(original), atB)
    ensures var s := Synchronize(original, readsA, readsB); var recsA, recsB := Records(readsA), Records(readsB);
      && SyncedA(s.log, recsA) == KeepIn(recsA, Ids(recsB))
      && OrphansA(s.log, recsA) == DropIn(recsA, Ids(recsB))
      && SyncedB(s.log, recsB) == KeepIn(recsB, Ids(recsA))
      && OrphansB(s.log, recsB) == DropIn(recsB, Ids(recsA))
  {
    SubsequencesRouted(Headers(original), Records(readsA), Records(readsB), atA, atB);
  }

  /** Both candidates are read to the end, `kept` counts the identifiers present
      in both, `orphaned_a` those only in A and `orphaned_b` those only in B. */
  lemma SubsequencesFullyClassified(hs: seq<string>, recsA: seq<Record>, recsB: seq<Record>, atA: seq<nat>, atB: seq<nat>)
    requires DistinctNonEmpty(hs) && Embeds(Ids(recsA), hs, atA) && Embeds(Ids(recsB), hs, atB)
    ensures var c := Run(hs, recsA, recsB).counters;
      c.totalA == |recsA| && c.totalB == |recsB|
      && c.kept == CountShared(hs, Ids(recsA), Ids(recsB))
      && c.orphanedA == CountOnly(hs, Ids(recsA), Ids(recsB))
      && c.orphanedB == CountOnly(hs, Ids(recsB), Ids(recsA))
  {
    RunFollowsEmbedding(hs, recsA, recsB, atA, atB, |hs|);
    assert hs[..|hs|] == hs;
    Conservation(hs, recsA, recsB);
  }

  /** The same on the three files: when the filtered files' identifiers are
      order-preserving subsequences of the original's distinct nonempty header
      identifiers, the run reads every record of both filtered files. */
  lemma FilesFullyClassified(original: seq<string>, readsA: seq<string>, readsB: seq<string>, atA: seq<nat>, atB: seq<nat>)
    requires DistinctNonEmpty(Headers(original))
    requires Embeds(Ids(Records(readsA)), Headers(original), atA)
    requires Embeds(Ids(Records(readsB)), Headers(original), atB)
    ensures var c := Synchronize(original, readsA, readsB).counters;
      c.totalA == NumRecords(readsA) && c.totalB == NumRecords(readsB)
      && c.kept == CountShared(Headers(original), Ids(Records(readsA)), Ids(Records(readsB)))
      && c.orphanedA == CountOnly(Headers(original), Ids(Records(readsA)), Ids(Records(readsB)))
      && c.orphanedB == CountOnly(Headers(original), Ids(Records(readsB)), Ids(Records(readsA)))
  {
    SubsequencesFullyClassified(Headers(original), Records(readsA), Records(readsB), atA, atB);
  }
}
