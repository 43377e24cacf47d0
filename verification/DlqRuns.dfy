/** The dead-letter register at the end of every run of the sink. */
module DlqRuns {
  import opened Basics
  import opened Events
  import opened SinkPlan
  import opened SinkBatch
  import opened SinkRecovery
  import opened SinkRun
  import opened SinkInvariant
  import opened SinkWrites
  import opened DlqRegister
  import opened DlqTable
  import Dlq
  import Texts

  /** The MERGE sources of an epoch, one list per batch. */
  function EpochSources(log: seq<seq<Decoded>>): (run: seq<seq<Dlq.Source>>)
    ensures |run| == |log|
    ensures forall i :: 0 <= i < |log| ==> run[i] == Dlq.Sources(log[i], i)
  {
    seq(|log|, i requires 0 <= i < |log| => Dlq.Sources(log[i], i))
  }

  lemma MergeNothing(table: Table)
    ensures Dlq.Merge(table, []) == table
  {
    MapsEqualByGet(Dlq.Merge(table, []), table);
  }

  lemma {:induction false} MergeRunConcat(table: Table, a: seq<seq<Dlq.Source>>, b: seq<seq<Dlq.Source>>)
    ensures MergeRun(table, a + b) == MergeRun(MergeRun(table, a), b)
  {
    hide Dlq.Merge;
    if b == [] {
      assert a + b == a;
    } else {
      var n := |b| - 1;
      MergeRunConcat(table, a, b[..n]);
      assert (a + b)[..|a + b| - 1] == a + b[..n];
    }
  }

  lemma CleanBatchDlq(h: History, cfg: Config, lake: Lake, stamp: Stamp, records: seq<Decoded>)
    requires DistinctLsns(h) && Deliverable(h, cfg, records)
    ensures CleanBatch(h, cfg, lake, stamp, records).dlq == Dlq.Merge(lake.dlq, Dlq.Sources(records, stamp.batch))
  {
    hide Winners, Append, Upsert, RecordOf, MergeAll, PlanOn, Dlq.Merge, OnePerKey;
    if records == [] {
      MergeNothing(lake.dlq);
    } else {
      JobIsOnePerKey(h, cfg, lake, stamp, records, LookupWatermark(lake.records, stamp));
    }
  }

  lemma {:induction false} CleanDlq(h: History, cfg: Config, base: Lake, epoch: string, log: seq<seq<Decoded>>)
    requires DistinctLsns(h) && LogOk(h, cfg, log)
    ensures CleanRun(h, cfg, base, epoch, log).dlq == MergeRun(base.dlq, EpochSources(log))
  {
    hide CleanBatch, Dlq.Merge, Dlq.Sources, Deliverable;
    if log != [] {
      var n := |log| - 1;
      CleanDlq(h, cfg, base, epoch, log[..n]);
      assert EpochSources(log)[..n] == EpochSources(log[..n]);
      CleanBatchDlq(h, cfg, CleanRun(h, cfg, base, epoch, log[..n]), Stamp(epoch, n), log[n]);
    }
  }

  /** Between batches the register of one epoch is that of its committed batches, each merged once, however often they
      were merged. */
  lemma RegisterAfterEpoch(h: History, cfg: Config, epoch: string, actions: seq<Action>, s: State, i: nat, id: DlqId)
    requires DistinctLsns(h) && IsRun(h, cfg, epoch, actions, s) && s.pending.None?
    requires i <= |s.log| && id in MergeRun(s.base.dlq, EpochSources(s.log)[..i])
    ensures var before := MergeRun(s.base.dlq, EpochSources(s.log)[..i])[id];
            && id in s.lake.dlq
            && (IsRegisterOf(s.lake.dlq[id], before, EpochSources(s.log)[i..], id) <==>
                Unmasked(before, EpochSources(s.log)[i..], id))
            && before.attempts <= s.lake.dlq[id].attempts
                               <= before.attempts + CountRunReplays(EpochSources(s.log)[i..], id)
  {
    hide IsRun, CleanRun, MergeRun, HoldsWinner, IsRegisterOf, Unmasked, CountRunReplays, DistinctLsns;
    CrashFreeRefinement(h, cfg, epoch, actions, s);
    CleanDlq(h, cfg, s.base, s.epoch, s.log);
    var run := EpochSources(s.log);
    assert run == run[..i] + run[i..];
    MergeRunConcat(s.base.dlq, run[..i], run[i..]);
    RegisterOverRuns(MergeRun(s.base.dlq, run[..i]), run[i..], id);
  }

  /** Between batches, which rejected records have a row: those from before the epoch, and those whose rejection was
      the newest row of the record in a batch the epoch committed. */
  lemma RowExistsAfterEpoch(h: History, cfg: Config, epoch: string, actions: seq<Action>, s: State, id: DlqId)
    requires DistinctLsns(h) && IsRun(h, cfg, epoch, actions, s) && s.pending.None?
    ensures id in s.lake.dlq <==> id in s.base.dlq || SomeOriginalWins(EpochSources(s.log), id)
  {
    hide IsRun, CleanRun, DistinctLsns;
    CrashFreeRefinement(h, cfg, epoch, actions, s);
    CleanDlq(h, cfg, s.base, s.epoch, s.log);
    RowExists(s.base.dlq, EpochSources(s.log), id);
  }

  // ------------------------------------------------ whole runs, through every epoch

  /** Every DLQ MERGE a run has committed. */
  function Merged(cfg: Config, s: State): seq<seq<Dlq.Source>> {
    SourcesOf(DlqMerges(cfg, s.writes))
  }

  /** In every state of every run: the table is the list of rows those MERGE statements leave, with at most one row per
      record, and exactly the records have one whose rejection was the newest row of the record in some MERGE. */
  lemma TableOfEveryRun(h: History, cfg: Config, epoch: string, actions: seq<Action>, s: State, id: DlqId)
    requires IsRun(h, cfg, epoch, actions, s)
    ensures Represents(MergeRowsRun(Merged(cfg, s)), s.lake.dlq)
    ensures id in s.lake.dlq <==> SomeOriginalWins(Merged(cfg, s), id)
  {
    hide IsRun, MergeRun;
    RunFromWrites(h, cfg, epoch, actions, s);
    AtMostOneRowPerRecord(Merged(cfg, s));
    RowExists(map[], Merged(cfg, s), id);
  }

  lemma RowOfEveryRun(h: History, cfg: Config, epoch: string, actions: seq<Action>, s: State, i: nat, id: DlqId)
    requires IsRun(h, cfg, epoch, actions, s)
    requires i <= |Merged(cfg, s)| && id in MergeRun(map[], Merged(cfg, s)[..i])
    ensures var before := MergeRun(map[], Merged(cfg, s)[..i])[id];
            && id in s.lake.dlq
            && HoldsWinner(s.lake.dlq[id], before, Merged(cfg, s)[i..], id)
            && before.attempts <= s.lake.dlq[id].attempts
            && s.lake.dlq[id].attempts <=
                 before.attempts + |PositionsPassed(before, s.lake.dlq[id], Merged(cfg, s)[i..], id)|
  {
    hide IsRun, MergeRun, HoldsWinner, PositionsPassed, Merged;
    RunFromWrites(h, cfg, epoch, actions, s);
    var run := Merged(cfg, s);
    DlqOf(cfg, s);
    assert run == run[..i] + run[i..];
    MergeRunConcat(map[], run[..i], run[i..]);
    WinnersOverRuns(MergeRun(map[], run[..i]), run[i..], id);
    AttemptsAreReplays(MergeRun(map[], run[..i]), run[i..], id);
  }

  lemma DlqOf(cfg: Config, s: State)
    requires FromWrites(cfg, s)
    ensures s.lake.dlq == MergeRun(map[], Merged(cfg, s))
  {
  }

  /** In every state of every run, through crashes, repeated writes, wipes in the middle of a batch and redelivered
      originals: once a record has its row, after the first i MERGE statements, the row is the last-writer-wins register
      of the replays the later ones brought if and only if no original masks the greatest of them. */
  lemma RegisterAfterEveryRun(h: History, cfg: Config, epoch: string, actions: seq<Action>, s: State, i: nat, id: DlqId)
    requires IsRun(h, cfg, epoch, actions, s)
    requires i <= |Merged(cfg, s)| && id in MergeRun(map[], Merged(cfg, s)[..i])
    ensures var before := MergeRun(map[], Merged(cfg, s)[..i])[id];
            && id in s.lake.dlq
            && (IsRegisterOf(s.lake.dlq[id], before, Merged(cfg, s)[i..], id) <==>
                Unmasked(before, Merged(cfg, s)[i..], id))
            && before.attempts <= s.lake.dlq[id].attempts
            && s.lake.dlq[id].attempts <=
                 before.attempts + |PositionsPassed(before, s.lake.dlq[id], Merged(cfg, s)[i..], id)|
  {
    hide IsRun, MergeRun, HoldsWinner, IsRegisterOf, Unmasked, PositionsPassed, Merged;
    RowOfEveryRun(h, cfg, epoch, actions, s, i, id);
    RegisterExact(s.lake.dlq[id], MergeRun(map[], Merged(cfg, s)[..i])[id], Merged(cfg, s)[i..], id);
  }

  lemma {:induction false} SourcesInRecords(records: seq<Decoded>, batch: nat, s: Dlq.Source)
    ensures s in Dlq.Sources(records, batch) <==>
            exists r :: r in records && Dlq.Relevant(r) && s == Dlq.SourceOf(r, batch)
  {
    if records != [] {
      var n := |records| - 1;
      assert records == records[..n] + [records[n]];
      SourcesInRecords(records[..n], batch, s);
    }
  }

  function PositionOf(r: Decoded): string {
    Texts.Position(r.partition, r.offset)
  }

  /** A replay of the record among the MERGE statements from the i-th on. */
  ghost predicate ReplayIn(merges: seq<DlqMerge>, i: nat, id: DlqId, r: Decoded) {
    Dlq.Relevant(r) && r.replayOf == Some(id) && exists k :: i <= k < |merges| && r in merges[k].records
  }

  lemma ReplayHasSource(merges: seq<DlqMerge>, i: nat, id: DlqId, r: Decoded)
    requires i <= |merges| && ReplayIn(merges, i, id, r)
    ensures exists s :: Replay(SourcesOf(merges)[i..], id, s) && s.position == PositionOf(r) &&
                        (s.status == Dlq.Replayed <==> r.payload.Valid?)
  {
    var k :| i <= k < |merges| && r in merges[k].records;
    var s := Dlq.SourceOf(r, merges[k].batch);
    SourcesInRecords(merges[k].records, merges[k].batch, s);
    assert s in SourcesOf(merges)[i..][k - i];
    assert Replay(SourcesOf(merges)[i..], id, s);
  }

  lemma SourceHasReplay(merges: seq<DlqMerge>, i: nat, id: DlqId, s: Dlq.Source) returns (r: Decoded)
    requires i <= |merges| && Replay(SourcesOf(merges)[i..], id, s)
    ensures ReplayIn(merges, i, id, r) && s.position == PositionOf(r)
    ensures s.status == Dlq.Replayed <==> r.payload.Valid?
  {
    var j :| 0 <= j < |merges| - i && s in SourcesOf(merges)[i..][j];
    assert s in SourcesOf(merges)[i + j];
    SourcesInRecords(merges[i + j].records, merges[i + j].batch, s);
    r :| r in merges[i + j].records && Dlq.Relevant(r) && s == Dlq.SourceOf(r, merges[i + j].batch);
  }

  /** No replay among the MERGE statements from the i-th on comes after `last`, and one at its position ended the same
      way. */
  ghost predicate IsLastReplay(merges: seq<DlqMerge>, i: nat, id: DlqId, last: Decoded) {
    && ReplayIn(merges, i, id, last)
    && forall q {:trigger ReplayIn(merges, i, id, q)} :: ReplayIn(merges, i, id, q) ==>
         && !Texts.StrLess(PositionOf(last), PositionOf(q))
         && (PositionOf(q) == PositionOf(last) ==> (q.payload.Valid? <==> last.payload.Valid?))
  }

  /** In terms of records: the replay with the greatest position decides. The row reaches its position if and only if
      it is the newest row of the record in one of its batches, and then ends `replayed` if that replay decoded as
      valid and `open` if it was rejected again, whatever was replayed before it and in which batches. */
  lemma LastReplayDecides(h: History, cfg: Config, epoch: string, actions: seq<Action>, s: State, i: nat, id: DlqId,
                          last: Decoded)
    requires IsRun(h, cfg, epoch, actions, s)
    requires i <= |Merged(cfg, s)| && id in MergeRun(map[], Merged(cfg, s)[..i])
    requires IsLastReplay(DlqMerges(cfg, s.writes), i, id, last)
    requires Dlq.Newer(MergeRun(map[], Merged(cfg, s)[..i])[id], PositionOf(last))
    ensures id in s.lake.dlq
    ensures s.lake.dlq[id].lastPosition == Some(PositionOf(last)) <==> GreatestWins(Merged(cfg, s)[i..], id)
    ensures GreatestWins(Merged(cfg, s)[i..], id) ==>
              s.lake.dlq[id].status == (if last.payload.Valid? then Dlq.Replayed else Dlq.Open)
  {
    hide IsRun, MergeRun, PositionsPassed, HoldsWinner, IsLastReplay, GreatestWins;
    RowOfEveryRun(h, cfg, epoch, actions, s, i, id);
    var before := MergeRun(map[], Merged(cfg, s)[..i])[id];
    if GreatestWins(Merged(cfg, s)[i..], id) {
      LastReplayWins(DlqMerges(cfg, s.writes), i, id, last, before, s.lake.dlq[id]);
    }
    if s.lake.dlq[id].lastPosition == Some(PositionOf(last)) {
      OnlyIfItWins(DlqMerges(cfg, s.writes), i, id, last, before, s.lake.dlq[id]);
    }
  }

  lemma GreatestPosition(merges: seq<DlqMerge>, i: nat, id: DlqId, last: Decoded)
    requires i <= |merges| && IsLastReplay(merges, i, id, last)
    ensures IsGreatest(SourcesOf(merges)[i..], id, PositionOf(last))
  {
    hide Replay, ReplayIn;
    var run := SourcesOf(merges)[i..];
    forall s | Replay(run, id, s) ensures !Texts.StrLess(PositionOf(last), s.position) {
      var q := SourceHasReplay(merges, i, id, s);
    }
  }

  lemma LastReplayWins(merges: seq<DlqMerge>, i: nat, id: DlqId, last: Decoded, before: Dlq.Row, row: Dlq.Row)
    requires i <= |merges| && IsLastReplay(merges, i, id, last) && Dlq.Newer(before, PositionOf(last))
    requires HoldsWinner(row, before, SourcesOf(merges)[i..], id) && GreatestWins(SourcesOf(merges)[i..], id)
    ensures row.lastPosition == Some(PositionOf(last))
    ensures row.status == (if last.payload.Valid? then Dlq.Replayed else Dlq.Open)
  {
    hide HoldsWinner, GreatestWins, IsLastReplay, Replay, ReplayIn, Dlq.Newer;
    var run := SourcesOf(merges)[i..];
    GreatestIsRegister(row, before, run, id);
    assert ReplayIn(merges, i, id, last) by { ItIsAReplay(merges, i, id, last); }
    ReplayHasSource(merges, i, id, last);
    var top :| Replay(run, id, top) && top.position == PositionOf(last);
    var seen :| Replay(run, id, seen) && seen.position == row.lastPosition.value && seen.status == row.status;
    GreatestPosition(merges, i, id, last);
    NoLater(row, top.position);
    Texts.StrLessTotal(top.position, seen.position);
    var q := SourceHasReplay(merges, i, id, seen);
    SamePlace(merges, i, id, last, q);
  }

  lemma ItIsAReplay(merges: seq<DlqMerge>, i: nat, id: DlqId, last: Decoded)
    requires IsLastReplay(merges, i, id, last)
    ensures ReplayIn(merges, i, id, last)
  {
  }

  lemma SamePlace(merges: seq<DlqMerge>, i: nat, id: DlqId, last: Decoded, q: Decoded)
    requires IsLastReplay(merges, i, id, last) && ReplayIn(merges, i, id, q) && PositionOf(q) == PositionOf(last)
    ensures q.payload.Valid? <==> last.payload.Valid?
  {
  }

  lemma OnlyIfItWins(merges: seq<DlqMerge>, i: nat, id: DlqId, last: Decoded, before: Dlq.Row, row: Dlq.Row)
    requires i <= |merges| && IsLastReplay(merges, i, id, last) && Dlq.Newer(before, PositionOf(last))
    requires HoldsWinner(row, before, SourcesOf(merges)[i..], id) && row.lastPosition == Some(PositionOf(last))
    ensures GreatestWins(SourcesOf(merges)[i..], id)
  {
    hide IsLastReplay, Winner;
    var run := SourcesOf(merges)[i..];
    Texts.StrLessIrreflexive(PositionOf(last));
    var w :| Winner(run, id, w) && row.lastPosition == Some(w.position);
    GreatestPosition(merges, i, id, last);
  }

  lemma NoLater(row: Dlq.Row, position: string)
    requires !Dlq.Newer(row, position)
    ensures row.lastPosition.Some? && !Texts.StrLess(row.lastPosition.value, position)
  {
  }
}
