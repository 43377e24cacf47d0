/** What a batch writes about its events, the bronze labels and the batch record, against plan_batch over every run. */
module SinkLabels {
  import opened Basics
  import opened Events
  import opened SinkPlan
  import opened SinkBatch
  import opened SinkRecovery
  import opened SinkSafety
  import opened SinkRun
  import opened SinkInvariant
  import opened SinkAgreement
  import opened SinkAccounting
  import Semantics

  // ------------------------------------------------------------------- bronze labels

  /** The row logs the first occurrence of its event with what plan_batch says about it. */
  ghost predicate Labelled(r: BronzeRow, valid: seq<ChangeEvent>, stamp: Stamp, model: Semantics.BatchPlan) {
    var id := r.event.id;
    && r.stamp == stamp
    && FirstOf(valid, id) == Some(r.event)
    && id in model.outcomes
    && (r.outcome == Applied <==> model.outcomes[id] == Semantics.Applied)
    && (r.outcome == Superseded <==> model.outcomes[id] == Semantics.Superseded)
    && (r.outcome == Stale <==> model.outcomes[id] == Semantics.Stale)
    && (r.late <==> id in model.late)
  }

  lemma FreshRowsCarryLabels(bronze: Bronze, plan: Plan, valid: seq<ChangeEvent>, stamp: Stamp,
                             model: Semantics.BatchPlan, r: BronzeRow)
    requires SamePlan(plan, model) && plan.Keys == Ids(valid)
    requires forall id :: id in plan ==> plan[id].event == Kept(valid)[id] && Kept(valid)[id].id == id
    requires r in Append(bronze, plan, valid, stamp) && r !in bronze
    ensures Labelled(r, valid, stamp, model)
  {
    assert r in FreshRows(bronze, plan, MinTs(valid), MaxTs(valid), stamp);
    assert SameOutcome(plan[r.event.id].outcome, model.outcomes[r.event.id]);
  }

  /** The rows one append adds carry the labels plan_batch gives their events. */
  lemma BronzeLabelsAgree(h: History, lake: Lake, valid: seq<ChangeEvent>, stamp: Stamp, watermark: int, lateness: int,
                          model: Semantics.BatchPlan, r: BronzeRow)
    requires From(h, valid) && Current(h, lake, stamp)
    requires DistinctRanks(Kept(valid), PriorDups(valid, lake.bronze, stamp))
    requires Semantics.IsPlanOf(model, stamp.batch, valid, ModelSilver(lake.silver, stamp.epoch),
                                ModelBronze(lake.bronze, stamp.epoch), watermark, lateness)
    requires r !in lake.bronze
    requires r in Append(lake.bronze, PlanOn(valid, lake.silver, lake.bronze, stamp, watermark), valid, stamp)
    ensures Labelled(r, valid, stamp, model)
  {
    hide Labelled, Append, PlanOn, SamePlan, Current, Semantics.IsPlanOf;
    PlansAgree(h, lake, valid, stamp, watermark, lateness, model);
    PlanShape(valid, lake.silver, lake.bronze, stamp, watermark);
    var plan := PlanOn(valid, lake.silver, lake.bronze, stamp, watermark);
    FreshRowsCarryLabels(lake.bronze, plan, valid, stamp, model, r);
  }

  /** What plan_batch can answer about a batch of records on a lake at rest. */
  ghost predicate Answers(model: Semantics.BatchPlan, cfg: Config, lake: Lake, stamp: Stamp, records: seq<Decoded>) {
    Semantics.IsPlanOf(model, stamp.batch, ValidEvents(records), ModelSilver(lake.silver, stamp.epoch),
                       ModelBronze(lake.bronze, stamp.epoch), LookupWatermark(lake.records, stamp), cfg.lateness)
  }

  lemma ReadyRanks(h: History, cfg: Config, lake: Lake, stamp: Stamp, records: seq<Decoded>)
    requires Ready(h, cfg, lake, stamp, records)
    ensures From(h, ValidEvents(records)) && Current(h, lake, stamp)
    ensures DistinctRanks(Kept(ValidEvents(records)), PriorDups(ValidEvents(records), lake.bronze, stamp))
  {
    KeptIsFrom(h, ValidEvents(records));
    RanksFromLsns(h, Kept(ValidEvents(records)), PriorDups(ValidEvents(records), lake.bronze, stamp));
  }

  lemma CleanBatchLabels(h: History, cfg: Config, lake: Lake, stamp: Stamp, records: seq<Decoded>, r: BronzeRow,
                         model: Semantics.BatchPlan)
    requires Ready(h, cfg, lake, stamp, records) && Answers(model, cfg, lake, stamp, records)
    requires r in CleanBatch(h, cfg, lake, stamp, records).bronze && r !in lake.bronze
    ensures Labelled(r, ValidEvents(records), stamp, model)
  {
    hide Ready, PlanOn, Labelled, Current, DistinctRanks, Semantics.IsPlanOf, Winners, MergeAll, Upsert, RecordOf;
    assert DistinctLsns(h) && Deliverable(h, cfg, records) by { ReadyIsDeliverable(h, cfg, lake, stamp, records); }
    ReadyRanks(h, cfg, lake, stamp, records);
    JobIsOnePerKey(h, cfg, lake, stamp, records, LookupWatermark(lake.records, stamp));
    var watermark := LookupWatermark(lake.records, stamp);
    BronzeLabelsAgree(h, lake, ValidEvents(records), stamp, watermark, cfg.lateness, model, r);
  }

  lemma ReadyIsDeliverable(h: History, cfg: Config, lake: Lake, stamp: Stamp, records: seq<Decoded>)
    requires Ready(h, cfg, lake, stamp, records)
    ensures DistinctLsns(h) && Deliverable(h, cfg, records)
  {
  }

  lemma CleanBatchStamps(h: History, cfg: Config, lake: Lake, stamp: Stamp, records: seq<Decoded>, r: BronzeRow)
    requires DistinctLsns(h) && Deliverable(h, cfg, records)
    requires r in CleanBatch(h, cfg, lake, stamp, records).bronze && r !in lake.bronze
    ensures r.stamp == stamp
  {
    hide PlanOn, Winners, MergeAll, Upsert, RecordOf, OnePerKey;
    if records != [] {
      JobIsOnePerKey(h, cfg, lake, stamp, records, LookupWatermark(lake.records, stamp));
      BronzeStampsAfter(lake.bronze, FirstJob(lake, stamp, records).plan, ValidEvents(records), stamp);
    }
  }

  /** The lake the n-th batch of an epoch starts from when nothing goes wrong. */
  ghost function Before(h: History, cfg: Config, base: Lake, epoch: string, log: seq<seq<Decoded>>, n: nat): Lake
    requires DistinctLsns(h) && LogOk(h, cfg, log) && n <= |log|
  {
    CleanRun(h, cfg, base, epoch, log[..n])
  }

  lemma BeforeIsReady(h: History, cfg: Config, base: Lake, epoch: string, log: seq<seq<Decoded>>, n: nat)
    requires DistinctLsns(h) && LogOk(h, cfg, log) && LakeOk(h, base) && StampsBefore(base, epoch, 0) && n < |log|
    ensures Ready(h, cfg, Before(h, cfg, base, epoch, log, n), Stamp(epoch, n), log[n])
  {
    CleanRunOk(h, cfg, base, epoch, log[..n]);
  }

  lemma {:induction false} CleanLabels(h: History, cfg: Config, base: Lake, epoch: string, log: seq<seq<Decoded>>,
                                       r: BronzeRow, n: nat)
    requires DistinctLsns(h) && LogOk(h, cfg, log) && LakeOk(h, base) && StampsBefore(base, epoch, 0)
    requires r in CleanRun(h, cfg, base, epoch, log).bronze && r.stamp == Stamp(epoch, n)
    ensures n < |log|
    ensures forall model {:trigger Labelled(r, ValidEvents(log[n]), r.stamp, model)} ::
              Answers(model, cfg, Before(h, cfg, base, epoch, log, n), r.stamp, log[n]) ==>
              Labelled(r, ValidEvents(log[n]), r.stamp, model)
  {
    hide Labelled, Answers, CleanBatch, Deliverable, ValidEvents, LakeOk, DistinctLsns, Ready;
    if log != [] {
      var m := |log| - 1;
      var before := CleanRun(h, cfg, base, epoch, log[..m]);
      if r in before.bronze {
        CleanLabels(h, cfg, base, epoch, log[..m], r, n);
        assert log[..m][..n] == log[..n];
      } else {
        CleanBatchStamps(h, cfg, before, Stamp(epoch, m), log[m], r);
        BeforeIsReady(h, cfg, base, epoch, log, m);
        forall model | Answers(model, cfg, before, r.stamp, log[m])
          ensures Labelled(r, ValidEvents(log[m]), r.stamp, model)
        {
          CleanBatchLabels(h, cfg, before, Stamp(epoch, m), log[m], r, model);
        }
      }
    }
  }

  /** The batches of the current epoch: the committed ones and the one in flight. */
  function Batches(s: State): seq<seq<Decoded>> {
    if s.pending.Some? then s.log + [s.pending.value] else s.log
  }

  lemma BatchesOk(h: History, cfg: Config, s: State)
    requires Inv(h, cfg, s)
    ensures LogOk(h, cfg, Batches(s)) && LakeOk(h, s.base) && StampsBefore(s.base, s.epoch, 0)
  {
  }

  /** Whatever the attempts have written, bronze holds rows of the crash-free run only. */
  lemma BronzeWithinClean(h: History, cfg: Config, s: State, r: BronzeRow)
    requires Inv(h, cfg, s) && LogOk(h, cfg, Batches(s)) && r in s.lake.bronze
    ensures r in CleanRun(h, cfg, s.base, s.epoch, Batches(s)).bronze
  {
    hide Winners, MergeAll, Upsert, RecordOf, OnePerKey, PlanOn, FreshRows, Progress;
    if s.pending.Some? {
      var log := Batches(s);
      assert log[..|s.log|] == s.log;
      CleanBatchBronzeGrows(h, cfg, CleanRun(h, cfg, s.base, s.epoch, s.log), StampOf(s), s.pending.value, r);
    }
  }

  lemma CleanBatchBronzeGrows(h: History, cfg: Config, start: Lake, stamp: Stamp, records: seq<Decoded>, r: BronzeRow)
    requires DistinctLsns(h) && Deliverable(h, cfg, records)
    ensures r in start.bronze ==> r in CleanBatch(h, cfg, start, stamp, records).bronze
  {
    hide Winners, MergeAll, Upsert, RecordOf, OnePerKey, PlanOn, FreshRows;
    if records != [] { JobIsOnePerKey(h, cfg, start, stamp, records, LookupWatermark(start.records, stamp)); }
  }

  /** In every state of every run, half-written batches included: every bronze row of the current epoch belongs to one
      of its batches, logs the first occurrence of its event there, and carries the outcome and the late flag that
      plan_batch gives the event on the crash-free tables before that batch. */
  lemma EveryRowIsLabelled(h: History, cfg: Config, epoch: string, actions: seq<Action>, s: State, r: BronzeRow)
    requires DistinctLsns(h) && IsRun(h, cfg, epoch, actions, s)
    requires r in s.lake.bronze && r.stamp.epoch == s.epoch
    ensures LogOk(h, cfg, Batches(s)) && r.stamp.batch < |Batches(s)|
    ensures forall model {:trigger Labelled(r, ValidEvents(Batches(s)[r.stamp.batch]), r.stamp, model)} ::
              Answers(model, cfg, Before(h, cfg, s.base, s.epoch, Batches(s), r.stamp.batch), r.stamp,
                      Batches(s)[r.stamp.batch]) ==>
              Labelled(r, ValidEvents(Batches(s)[r.stamp.batch]), r.stamp, model)
  {
    hide Inv, IsRun, LakeOk, StampsBefore, Labelled, Answers, Deliverable, DistinctLsns;
    RunKeeps(h, cfg, epoch, actions, s);
    BatchesOk(h, cfg, s);
    BronzeWithinClean(h, cfg, s, r);
    CleanLabels(h, cfg, s.base, s.epoch, Batches(s), r, r.stamp.batch);
  }
}
