/** Counting and timekeeping: the partition of a batch, conservation of rows, and the watermark over runs. */
module SinkAccounting {
  import opened Basics
  import opened Events
  import opened SinkPlan
  import opened SinkBatch
  import opened SinkRecovery
  import opened SinkRun
  import opened SinkInvariant
  import opened SinkSafety
  import opened SinkConvergence
  import opened SinkAgreement
  import Semantics

  // ------------------------------------------------------------------ plan partition

  /** Per key either every candidate is stale, or exactly one is applied: the highest by LSN and offset; the others of
      the key are then stale or superseded, and all outranked. */
  lemma PlanPartition(unique: map<EventId, ChangeEvent>, dups: set<EventId>, baselines: map<Key, int>, k: Key)
    requires DistinctRanks(unique, dups)
    ensures (forall id :: id in unique && id !in dups && unique[id].change.key == k ==>
               Label(unique, dups, baselines, id) == Stale)
         || (exists top :: top in unique && top !in dups && unique[top].change.key == k &&
               Label(unique, dups, baselines, top) == Applied &&
               forall id :: id in unique && id !in dups && unique[id].change.key == k && id != top ==>
                 && (unique[id].change.lsn < unique[top].change.lsn ||
                     (unique[id].change.lsn == unique[top].change.lsn && unique[id].offset < unique[top].offset))
                 && Label(unique, dups, baselines, id) in {Stale, Superseded})
  {
    if id :| id in unique && id !in dups && unique[id].change.key == k && Label(unique, dups, baselines, id) != Stale {
      var top := CandidateHasWinner(unique, dups, baselines, id);
      forall j | j in unique && j !in dups && unique[j].change.key == k && j != top
        ensures Outranks(unique[top], unique[j]) && Label(unique, dups, baselines, j) in {Stale, Superseded}
      {
        assert Rivals(unique, dups, j, top);
        assert Outranked(unique, dups, j);
      }
    }
  }

  lemma SplitCount(all: set<EventId>, a: set<EventId>, b: set<EventId>, c: set<EventId>, d: set<EventId>)
    requires all == a + b + c + d
    requires a !! b && a !! c && a !! d && b !! c && b !! d && c !! d
    ensures |all| == |a| + |b| + |c| + |d|
  {
    assert |a + b| == |a| + |b|;
    assert |a + b + c| == |a + b| + |c|;
  }

  lemma {:induction false} IdsAtMost(events: seq<ChangeEvent>)
    ensures |Ids(events)| <= |events|
  {
    if events != [] {
      var n := |events| - 1;
      IdsAtMost(events[..n]);
      assert events == events[..n] + [events[n]];
      assert Ids(events) == Ids(events[..n]) + {events[n].id};
    }
  }

  lemma {:induction false} PayloadCount(records: seq<Decoded>)
    ensures |records| == |ValidEvents(records)| + CountRejected(records) + CountTombstones(records)
  {
    if records != [] {
      PayloadCount(records[..|records| - 1]);
    }
  }

  lemma OutcomeCount(plan: Plan)
    ensures |plan.Keys| == CountOf(plan, Duplicate) + CountOf(plan, Applied) +
                           CountOf(plan, Superseded) + CountOf(plan, Stale)
  {
    SplitCount(plan.Keys,
               set id | id in plan && plan[id].outcome == Duplicate,
               set id | id in plan && plan[id].outcome == Applied,
               set id | id in plan && plan[id].outcome == Superseded,
               set id | id in plan && plan[id].outcome == Stale);
  }

  /** Conservation: every input row of a batch is a duplicate, applied, superseded, stale, rejected or a tombstone,
      and is counted once. */
  lemma Conservation(cfg: Config, job: Job)
    requires job.plan.Keys == Ids(ValidEvents(job.records))
    ensures var r := RecordOf(cfg, job);
            && r.validRows == r.duplicates + r.applied + r.superseded + r.stale
            && r.inputRows == r.validRows + r.dlqRows + r.tombstones
            && r.duplicates >= 0
  {
    OutcomeCount(job.plan);
    IdsAtMost(ValidEvents(job.records));
    PayloadCount(job.records);
  }

  // ------------------------------------------------------------ after a checkpoint wipe

  /** An event that was merged, or overtaken, under another epoch or batch is never applied again: if bronze does
      not hold it yet it is logged as stale. */
  lemma MergedElsewhereIsStale(silver: Silver, unique: map<EventId, ChangeEvent>, dups: set<EventId>, stamp: Stamp,
                               id: EventId)
    requires id in unique && unique[id].change.key in silver
    requires silver[unique[id].change.key].stamp != stamp
    ensures unique[id].change.lsn <= silver[unique[id].change.key].sourceLsn <==>
            IsStale(Baselines(silver, stamp), unique[id])
    ensures unique[id].change.lsn <= silver[unique[id].change.key].sourceLsn ==>
            Label(unique, dups, Baselines(silver, stamp), id) == if id in dups then Duplicate else Stale
  {
    var k := unique[id].change.key;
    assert Get(Baselines(silver, stamp), k) == Baseline(silver[k], stamp);
  }

  // --------------------------------------------------------------------- the watermark

  /** The watermark after a list of batches, batch by batch. */
  function RunWatermark(log: seq<seq<Decoded>>, lateness: int): int {
    if log == [] then 0
    else Advance(RunWatermark(log[..|log| - 1], lateness), ValidEvents(log[|log| - 1]), lateness)
  }

  lemma LookupAfterBatch(cfg: Config, lake: Lake, stamp: Stamp, job: Job)
    requires OnePerKey(job.plan) && job.stamp == stamp
    ensures LookupWatermark(After(cfg, lake, job).records, Stamp(stamp.epoch, stamp.batch + 1)) ==
            Advance(job.watermark, ValidEvents(job.records), cfg.lateness)
  {
    PreviousRecordIsLatest(After(cfg, lake, job).records, Stamp(stamp.epoch, stamp.batch + 1));
  }

  lemma LookupAfterGap(records: Records, stamp: Stamp)
    requires stamp !in records
    ensures LookupWatermark(records, Stamp(stamp.epoch, stamp.batch + 1)) == LookupWatermark(records, stamp)
  {
    assert EarlierBatches(records, Stamp(stamp.epoch, stamp.batch + 1)) == EarlierBatches(records, stamp);
  }

  /** The durable watermark before batch |log| is the fold over the batches, gaps left by empty batches included. */
  lemma {:induction false} CleanWatermark(h: History, cfg: Config, base: Lake, epoch: string, log: seq<seq<Decoded>>)
    requires DistinctLsns(h) && LogOk(h, cfg, log) && LakeOk(h, base) && StampsBefore(base, epoch, 0)
    ensures LookupWatermark(CleanRun(h, cfg, base, epoch, log).records, Stamp(epoch, |log|)) ==
            RunWatermark(log, cfg.lateness)
  {
    if log == [] {
      assert EarlierBatches(base.records, Stamp(epoch, 0)) == {};
    } else {
      var n := |log| - 1;
      var before := CleanRun(h, cfg, base, epoch, log[..n]);
      CleanWatermark(h, cfg, base, epoch, log[..n]);
      CleanRunOk(h, cfg, base, epoch, log[..n]);
      if log[n] == [] {
        LookupAfterGap(before.records, Stamp(epoch, n));
      } else {
        JobIsOnePerKey(h, cfg, before, Stamp(epoch, n), log[n], LookupWatermark(before.records, Stamp(epoch, n)));
        LookupAfterBatch(cfg, before, Stamp(epoch, n), FirstJob(before, Stamp(epoch, n), log[n]));
      }
    }
  }

  ghost predicate InLog(log: seq<seq<Decoded>>, e: ChangeEvent) {
    exists i :: 0 <= i < |log| && e in ValidEvents(log[i])
  }

  /** `w` is max(0, max ts - lateness) over all events of the log. */
  ghost predicate IsWatermarkOf(w: int, log: seq<seq<Decoded>>, lateness: int) {
    && w >= 0
    && (forall e :: InLog(log, e) ==> w >= e.change.tsMs - lateness)
    && (w == 0 || exists e :: InLog(log, e) && w == e.change.tsMs - lateness)
  }

  /** The fold forgets how the events were cut into batches: it is the closed form over all of them. */
  lemma {:induction false} RunWatermarkClosed(log: seq<seq<Decoded>>, lateness: int)
    ensures IsWatermarkOf(RunWatermark(log, lateness), log, lateness)
  {
    if log != [] {
      var n := |log| - 1;
      var before, valid := RunWatermark(log[..n], lateness), ValidEvents(log[n]);
      var w := RunWatermark(log, lateness);
      RunWatermarkClosed(log[..n], lateness);
      forall e | InLog(log, e) ensures w >= e.change.tsMs - lateness {
        var i :| 0 <= i < |log| && e in ValidEvents(log[i]);
        if i < n {
          assert e in ValidEvents(log[..n][i]);
          assert InLog(log[..n], e);
        }
      }
      if w == before {
        if w != 0 {
          var e :| InLog(log[..n], e) && w == e.change.tsMs - lateness;
          var i :| 0 <= i < n && e in ValidEvents(log[..n][i]);
          assert e in ValidEvents(log[i]);
          assert InLog(log, e);
        }
      } else {
        var e :| e in valid && e.change.tsMs == MaxTs(valid);
        assert InLog(log, e);
      }
    }
  }

  /** In every run, between batches, the watermark the next batch will read is max(0, max ts - lateness) over every
      event the epoch has committed, whatever the batching, the crashes and the restarts. */
  lemma WatermarkOverRuns(h: History, cfg: Config, epoch: string, actions: seq<Action>, s: State)
    requires DistinctLsns(h) && IsRun(h, cfg, epoch, actions, s) && s.pending.None?
    ensures IsWatermarkOf(WatermarkBefore(s), s.log, cfg.lateness)
  {
    RunKeeps(h, cfg, epoch, actions, s);
    CacheNeverStale(h, cfg, epoch, actions, s);
    var clean := CleanRun(h, cfg, s.base, s.epoch, s.log);
    WatermarkStable(s.lake.records, clean.records, StampOf(s));
    CleanWatermark(h, cfg, s.base, s.epoch, s.log);
    RunWatermarkClosed(s.log, cfg.lateness);
  }

  ghost predicate HasTs(log: seq<seq<Decoded>>, t: int) {
    exists e :: InLog(log, e) && e.change.tsMs == t
  }

  lemma WatermarkBelow(v: int, w: int, log1: seq<seq<Decoded>>, log2: seq<seq<Decoded>>, lateness: int)
    requires IsWatermarkOf(v, log1, lateness) && IsWatermarkOf(w, log2, lateness)
    requires forall t :: HasTs(log1, t) ==> HasTs(log2, t)
    ensures v <= w
  {
    if v != 0 {
      assert HasTs(log1, v + lateness);
    }
  }

  /** Two runs whose epochs committed events with the same timestamps agree on the watermark. */
  lemma WatermarkIgnoresBatching(h: History, cfg: Config, epoch1: string, actions1: seq<Action>, s1: State,
                                 epoch2: string, actions2: seq<Action>, s2: State)
    requires DistinctLsns(h) && s1.pending.None? && s2.pending.None?
    requires IsRun(h, cfg, epoch1, actions1, s1) && IsRun(h, cfg, epoch2, actions2, s2)
    requires forall t :: HasTs(s1.log, t) <==> HasTs(s2.log, t)
    ensures WatermarkBefore(s1) == WatermarkBefore(s2)
  {
    WatermarkOverRuns(h, cfg, epoch1, actions1, s1);
    WatermarkOverRuns(h, cfg, epoch2, actions2, s2);
    WatermarkBelow(WatermarkBefore(s1), WatermarkBefore(s2), s1.log, s2.log, cfg.lateness);
    WatermarkBelow(WatermarkBefore(s2), WatermarkBefore(s1), s2.log, s1.log, cfg.lateness);
  }

  lemma InLogSnoc(log: seq<seq<Decoded>>, e: ChangeEvent)
    requires log != []
    ensures InLog(log, e) <==> InLog(log[..|log| - 1], e) || e in ValidEvents(log[|log| - 1])
  {
    hide ValidEvents;
    var n := |log| - 1;
    if InLog(log[..n], e) {
      var i :| 0 <= i < n && e in ValidEvents(log[..n][i]);
      assert e in ValidEvents(log[i]);
    }
    if InLog(log, e) && e !in ValidEvents(log[n]) {
      var i :| 0 <= i < |log| && e in ValidEvents(log[i]);
      assert e in ValidEvents(log[..n][i]);
    }
  }

  lemma CleanBatchBronze(h: History, cfg: Config, lake: Lake, stamp: Stamp, records: seq<Decoded>)
    requires DistinctLsns(h) && Deliverable(h, cfg, records)
    ensures forall r :: r in CleanBatch(h, cfg, lake, stamp, records).bronze ==>
              r in lake.bronze || r.event in ValidEvents(records)
  {
    hide Winners, MergeAll, Upsert, RecordOf, OnePerKey;
    if records != [] {
      JobIsOnePerKey(h, cfg, lake, stamp, records, LookupWatermark(lake.records, stamp));
    }
  }

  /** Without rows from before the epoch, bronze only holds events of committed batches. */
  lemma {:induction false} CleanBronzeInLog(h: History, cfg: Config, base: Lake, epoch: string, log: seq<seq<Decoded>>)
    requires DistinctLsns(h) && LogOk(h, cfg, log) && base.bronze == multiset{}
    ensures forall r :: r in CleanRun(h, cfg, base, epoch, log).bronze ==> InLog(log, r.event)
  {
    hide CleanBatch, InLog, ValidEvents;
    if log != [] {
      var n := |log| - 1;
      var before := CleanRun(h, cfg, base, epoch, log[..n]);
      CleanBronzeInLog(h, cfg, base, epoch, log[..n]);
      CleanBatchBronze(h, cfg, before, Stamp(epoch, n), log[n]);
      forall r | r in CleanRun(h, cfg, base, epoch, log).bronze ensures InLog(log, r.event) {
        InLogSnoc(log, r.event);
      }
    }
  }

  /** In an epoch that started from an empty bronze table the sink and plan_batch compute the same watermark after
      every batch, although the sink counts duplicates and the model does not. */
  lemma WatermarkFormulasAgreeInEpoch(h: History, cfg: Config, base: Lake, epoch: string, log: seq<seq<Decoded>>,
                                      records: seq<Decoded>, after: int)
    requires DistinctLsns(h) && LogOk(h, cfg, log) && Deliverable(h, cfg, records)
    requires LakeOk(h, base) && StampsBefore(base, epoch, 0) && base.bronze == multiset{}
    requires var start := CleanRun(h, cfg, base, epoch, log);
             var valid := ValidEvents(records);
             var dups := PriorDups(valid, start.bronze, Stamp(epoch, |log|));
             Semantics.WatermarkOk(after, LookupWatermark(start.records, Stamp(epoch, |log|)),
                                   map j | j in Kept(valid) && j !in dups :: Kept(valid)[j], cfg.lateness)
    ensures var start := CleanRun(h, cfg, base, epoch, log);
            Advance(LookupWatermark(start.records, Stamp(epoch, |log|)), ValidEvents(records), cfg.lateness) == after
  {
    var start := CleanRun(h, cfg, base, epoch, log);
    var valid := ValidEvents(records);
    var dups := PriorDups(valid, start.bronze, Stamp(epoch, |log|));
    CleanWatermark(h, cfg, base, epoch, log);
    RunWatermarkClosed(log, cfg.lateness);
    CleanBronzeInLog(h, cfg, base, epoch, log);
    CleanRunOk(h, cfg, base, epoch, log);
    var before := LookupWatermark(start.records, Stamp(epoch, |log|));
    forall id | id in dups ensures NotAhead(h, valid, dups, before, cfg.lateness, id) {
      var r :| r in start.bronze && r.event.id == id;
      assert InLog(log, r.event);
    }
    WatermarkFormulas(h, valid, dups, before, after, cfg.lateness);
  }

  /** Before its first batch commits, every bronze row is from an earlier epoch. */
  lemma EarlierEpochsOnly(h: History, cfg: Config, s: State)
    requires Inv(h, cfg, s) && s.pending.None? && s.log == []
    ensures s.batchId == 0 && forall r :: r in s.lake.bronze ==> r.stamp.epoch != s.epoch
  {
    assert s.lake.bronze == s.base.bronze;
  }

  /** Events that bronze holds under other stamps are all prior duplicates. */
  lemma AllPrior(h: History, bronze: Bronze, valid: seq<ChangeEvent>, stamp: Stamp)
    requires From(h, valid) && BronzeOk(h, bronze) && Ids(valid) <= BronzeIds(bronze)
    requires forall r :: r in bronze ==> r.stamp != stamp
    ensures PriorDups(valid, bronze, stamp) == Ids(valid)
  {
    forall id | id in Ids(valid) ensures PriorDup(bronze, id, MinTs(valid), MaxTs(valid), stamp) {
      LookupIsComplete(h, bronze, valid, id);
    }
  }

  /** In every run: when a fresh epoch's first batch brings back events bronze already holds, all of them are prior
      duplicates, plan_batch leaves the watermark at zero and the sink moves it to max ts - lateness. The two differ as
      soon as an event is later than the allowed lateness. */
  lemma WatermarkAfterWipe(h: History, cfg: Config, epoch: string, actions: seq<Action>, s: State,
                           records: seq<Decoded>, model: Semantics.BatchPlan)
    requires DistinctLsns(h) && IsRun(h, cfg, epoch, actions, s) && s.pending.None? && s.log == []
    requires Deliverable(h, cfg, records) && Ids(ValidEvents(records)) <= BronzeIds(s.lake.bronze)
    requires Semantics.IsPlanOf(model, s.batchId, ValidEvents(records), ModelSilver(s.lake.silver, s.epoch),
                                ModelBronze(s.lake.bronze, s.epoch), WatermarkBefore(s), cfg.lateness)
    ensures PriorDups(ValidEvents(records), s.lake.bronze, StampOf(s)) == Ids(ValidEvents(records))
    ensures model.watermarkAfter == 0
    ensures Advance(WatermarkBefore(s), ValidEvents(records), cfg.lateness) != model.watermarkAfter <==>
            ValidEvents(records) != [] && MaxTs(ValidEvents(records)) > cfg.lateness
  {
    hide IsRun, DistinctLsns, Inv, BronzeOk, SilverOk, Dominated, Deliverable, PriorDups;
    var valid := ValidEvents(records);
    assert From(h, valid) by { DeliveredFrom(h, cfg, records); }
    RunKeeps(h, cfg, epoch, actions, s);
    InvLakeOk(h, cfg, s);
    WatermarkOverRuns(h, cfg, epoch, actions, s);
    EarlierEpochsOnly(h, cfg, s);
    AllPrior(h, s.lake.bronze, valid, StampOf(s));
    CandidatesAgree(h, s.lake, valid, StampOf(s));
    assert Semantics.Candidates(Kept(valid), ModelBronze(s.lake.bronze, s.epoch), s.batchId) == map[];
  }

  lemma DeliveredFrom(h: History, cfg: Config, records: seq<Decoded>)
    requires Deliverable(h, cfg, records)
    ensures From(h, ValidEvents(records))
  {
  }
}
