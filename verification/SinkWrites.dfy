/** Two tables read off the writes that committed: the dead-letter table and the attempt counters. */
module SinkWrites {
  import opened Basics
  import opened Events
  import opened SinkPlan
  import opened SinkBatch
  import opened SinkRun
  import opened DlqRegister
  import Dlq

  /** A batch as it was merged into the dead-letter table. */
  datatype DlqMerge = DlqMerge(records: seq<Decoded>, batch: nat)

  function IsDlqMerge(cfg: Config, w: Written): bool {
    w.k == |cfg.tables| + 1
  }

  /** Every DLQ MERGE that ever committed, repeated ones included, over all epochs. */
  function DlqMerges(cfg: Config, writes: seq<Written>): seq<DlqMerge> {
    if writes == [] then []
    else
      var w := writes[|writes| - 1];
      DlqMerges(cfg, writes[..|writes| - 1]) +
      if IsDlqMerge(cfg, w) then [DlqMerge(w.job.records, w.job.stamp.batch)] else []
  }

  function SourcesOf(merges: seq<DlqMerge>): (run: seq<seq<Dlq.Source>>)
    ensures |run| == |merges|
    ensures forall i :: 0 <= i < |merges| ==> run[i] == Dlq.Sources(merges[i].records, merges[i].batch)
  {
    seq(|merges|, i requires 0 <= i < |merges| => Dlq.Sources(merges[i].records, merges[i].batch))
  }

  /** How many commits of the batch record bear this stamp. */
  function RecordWrites(cfg: Config, writes: seq<Written>, stamp: Stamp): nat {
    if writes == [] then 0
    else
      var w := writes[|writes| - 1];
      RecordWrites(cfg, writes[..|writes| - 1], stamp) +
      if w.k == |cfg.tables| + 2 && w.job.stamp == stamp then 1 else 0
  }

  lemma OneMoreMerge(cfg: Config, lake: Lake, writes: seq<Written>, w: Written)
    requires OnePerKey(w.job.plan) && w.k < WriteCount(cfg)
    requires lake.dlq == MergeRun(map[], SourcesOf(DlqMerges(cfg, writes)))
    ensures Exec(cfg, lake, w.job, w.k).dlq == MergeRun(map[], SourcesOf(DlqMerges(cfg, writes + [w])))
  {
    hide Dlq.Merge, Dlq.Sources, Append, Upsert, RecordOf, MergeTable, Winners, OnePerKey;
    var before, after := DlqMerges(cfg, writes), DlqMerges(cfg, writes + [w]);
    assert (writes + [w])[..|writes|] == writes;
    if IsDlqMerge(cfg, w) {
      assert SourcesOf(after)[..|before|] == SourcesOf(before);
    } else {
      assert after == before;
    }
  }

  lemma OneMoreRecord(cfg: Config, lake: Lake, writes: seq<Written>, w: Written, stamp: Stamp)
    requires OnePerKey(w.job.plan) && w.k < WriteCount(cfg)
    requires Attempts(lake.records, stamp) == RecordWrites(cfg, writes, stamp)
    requires stamp in lake.records <==> RecordWrites(cfg, writes, stamp) > 0
    ensures var r := Exec(cfg, lake, w.job, w.k).records;
            && Attempts(r, stamp) == RecordWrites(cfg, writes + [w], stamp)
            && (stamp in r <==> RecordWrites(cfg, writes + [w], stamp) > 0)
  {
    hide Dlq.Merge, Dlq.Sources, Append, MergeTable, Winners, OnePerKey;
    assert (writes + [w])[..|writes|] == writes;
  }

  /** The `attempts` column of a batch record; 0 without one. */
  function Attempts(records: Records, stamp: Stamp): nat {
    if stamp in records then records[stamp].attempts else 0
  }

  /** The dead-letter table and the attempt counters of a run are those of its committed writes. */
  ghost predicate FromWrites(cfg: Config, s: State) {
    && s.lake.dlq == MergeRun(map[], SourcesOf(DlqMerges(cfg, s.writes)))
    && forall stamp :: Attempts(s.lake.records, stamp) == RecordWrites(cfg, s.writes, stamp) &&
                       (stamp in s.lake.records <==> RecordWrites(cfg, s.writes, stamp) > 0)
  }

  lemma StepFromWrites(h: History, cfg: Config, s: State, a: Action)
    requires FromWrites(cfg, s) && Enabled(h, cfg, s, a)
    ensures FromWrites(cfg, Next(cfg, s, a))
  {
    hide Exec, SourcesOf, MergeRun, DlqMerges, RecordWrites, Attempts, OnePerKey, Deliverable, StartJob, Advance;
    if a.Write? || a.Ambiguous? {
      var w := Written(s.phase.job, s.phase.pc);
      OneMoreMerge(cfg, s.lake, s.writes, w);
      forall stamp
        ensures var r := Exec(cfg, s.lake, w.job, w.k).records;
                Attempts(r, stamp) == RecordWrites(cfg, s.writes + [w], stamp) &&
                (stamp in r <==> RecordWrites(cfg, s.writes + [w], stamp) > 0)
      {
        OneMoreRecord(cfg, s.lake, s.writes, w, stamp);
      }
    }
  }

  lemma {:induction false} RunFromWrites(h: History, cfg: Config, epoch: string, actions: seq<Action>, s: State)
    requires IsRun(h, cfg, epoch, actions, s)
    ensures FromWrites(cfg, s)
  {
    if actions != [] {
      var n := |actions| - 1;
      var p :| IsRun(h, cfg, epoch, actions[..n], p) && Enabled(h, cfg, p, actions[n]) && s == Next(cfg, p, actions[n]);
      RunFromWrites(h, cfg, epoch, actions[..n], p);
      StepFromWrites(h, cfg, p, actions[n]);
    }
  }

  /** What `attempts` counts, in every state of every run: the commits of the batch record, no more and no less. */
  lemma AttemptsCountRecordWrites(h: History, cfg: Config, epoch: string, actions: seq<Action>, s: State, stamp: Stamp)
    requires IsRun(h, cfg, epoch, actions, s)
    ensures stamp in s.lake.records <==> RecordWrites(cfg, s.writes, stamp) > 0
    ensures stamp in s.lake.records ==> s.lake.records[stamp].attempts == RecordWrites(cfg, s.writes, stamp)
  {
    RunFromWrites(h, cfg, epoch, actions, s);
    assert Attempts(s.lake.records, stamp) == RecordWrites(cfg, s.writes, stamp);
  }

  /** An attempt killed before its record write leaves no trace in the counter. */
  lemma KilledAttemptIsNotCounted(h: History, cfg: Config, s: State)
    requires s.phase.Running? && s.pending.Some?
    ensures Enabled(h, cfg, s, Crash) && Enabled(h, cfg, Next(cfg, s, Crash), Begin)
    ensures Next(cfg, Next(cfg, s, Crash), Begin).lake.records == s.lake.records
  {
  }

  /** A record write that commits, reports a conflict and is retried counts twice within one attempt. */
  lemma AmbiguousRecordCountsTwice(h: History, cfg: Config, s: State)
    requires s.phase.Running? && s.phase.pc == |cfg.tables| + 2 && OnePerKey(s.phase.job.plan)
    ensures Enabled(h, cfg, s, Ambiguous) && Enabled(h, cfg, Next(cfg, s, Ambiguous), Write)
    ensures var end := Next(cfg, Next(cfg, s, Ambiguous), Write);
            end.phase.Finished? &&
            Attempts(end.lake.records, s.phase.job.stamp) == Attempts(s.lake.records, s.phase.job.stamp) + 2
  {
  }
}
