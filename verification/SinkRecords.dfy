/** The batch record: what each of its columns counts, for one batch and over every run. */
module SinkRecords {
  import opened Basics
  import opened Events
  import opened SinkPlan
  import opened SinkBatch
  import opened SinkRecovery
  import opened SinkSafety
  import opened SinkRun
  import opened SinkInvariant
  import opened SinkAgreement
  import opened SinkAccounting
  import opened SinkLabels
  import Semantics

  // -------------------------------------------------------------- counting the records

  predicate IsValid(d: Decoded) {
    d.payload.Valid?
  }

  predicate IsRejected(d: Decoded) {
    d.payload.Rejected?
  }

  predicate IsTombstone(d: Decoded) {
    d.payload.Tombstone?
  }

  /** Where in the batch the records with a property are. */
  function Places(records: seq<Decoded>, p: Decoded -> bool): set<int> {
    set i | 0 <= i < |records| && p(records[i])
  }

  lemma PlacesSnoc(records: seq<Decoded>, p: Decoded -> bool)
    requires records != []
    ensures |Places(records, p)| ==
            |Places(records[..|records| - 1], p)| + if p(records[|records| - 1]) then 1 else 0
  {
    var n := |records| - 1;
    assert Places(records, p) == Places(records[..n], p) + if p(records[n]) then {n} else {};
  }

  lemma {:induction false} PayloadPlaces(records: seq<Decoded>)
    ensures |ValidEvents(records)| == |Places(records, IsValid)|
    ensures CountRejected(records) == |Places(records, IsRejected)|
    ensures CountTombstones(records) == |Places(records, IsTombstone)|
  {
    if records != [] {
      PayloadPlaces(records[..|records| - 1]);
      PlacesSnoc(records, IsValid);
      PlacesSnoc(records, IsRejected);
      PlacesSnoc(records, IsTombstone);
    }
  }

  // ------------------------------------------------------------------ counting the plan

  lemma {:induction false} DistinctCount(s: seq<ChangeEvent>)
    requires Semantics.DistinctIds(s)
    ensures |Ids(s)| == |s|
  {
    if s != [] {
      var n := |s| - 1;
      assert s == s[..n] + [s[n]];
      DistinctCount(s[..n]);
      Semantics.IdsSnoc(s[..n], s[n]);
      assert s[n].id !in Ids(s[..n]);
    }
  }

  function KeysOf(plan: Plan, ids: set<EventId>): set<Key>
    requires ids <= plan.Keys
  {
    set id | id in ids :: plan[id].event.change.key
  }

  lemma OneMoreKey(plan: Plan, ids: set<EventId>, id: EventId)
    requires OnePerKey(plan) && IsApplied(plan, id) && id !in ids && forall j :: j in ids ==> IsApplied(plan, j)
    ensures |KeysOf(plan, ids + {id})| == |KeysOf(plan, ids)| + 1
  {
    var k := plan[id].event.change.key;
    assert KeysOf(plan, ids + {id}) == KeysOf(plan, ids) + {k};
    assert k !in KeysOf(plan, ids);
  }

  lemma {:induction false} OneKeyEach(plan: Plan, ids: set<EventId>)
    requires OnePerKey(plan) && forall id :: id in ids ==> IsApplied(plan, id)
    ensures |KeysOf(plan, ids)| == |ids|
  {
    if ids != {} {
      var id := AnElement(ids);
      var rest := ids - {id};
      OneKeyEach(plan, rest);
      OneMoreKey(plan, rest, id);
      assert ids == rest + {id};
    }
  }

  lemma WinnerKeys(plan: Plan, applied: set<EventId>)
    requires OnePerKey(plan) && applied == set id | id in plan && plan[id].outcome == Applied
    ensures (forall id :: id in applied ==> IsApplied(plan, id)) && Winners(plan).Keys == KeysOf(plan, applied)
  {
  }

  /** The batch record counts as applied exactly the rows the MERGE statements get. */
  lemma AppliedAreMerged(cfg: Config, job: Job)
    requires OnePerKey(job.plan)
    ensures RecordOf(cfg, job).applied == |Winners(job.plan)|
  {
    hide MaxTs, ValidEvents, Advance;
    var applied := set id | id in job.plan && job.plan[id].outcome == Applied;
    WinnerKeys(job.plan, applied);
    OneKeyEach(job.plan, applied);
    assert |Winners(job.plan)| == |Winners(job.plan).Keys|;
  }

  /** The columns that count labels, in the model's terms. */
  ghost predicate CountsLabels(r: BatchRecord, model: Semantics.BatchPlan) {
    && r.applied == |model.toApply|
    && r.superseded == |set id | id in model.outcomes && model.outcomes[id] == Semantics.Superseded|
    && r.stale == |set id | id in model.outcomes && model.outcomes[id] == Semantics.Stale|
    && r.lateRows == |model.late|
    && r.duplicates == model.inBatchDuplicates + |model.priorDuplicates|
  }

  /** The columns that count records and tell the time. `before` is the watermark the batch started from. */
  ghost predicate CountsRecords(r: BatchRecord, records: seq<Decoded>, before: int, lateness: int) {
    && r.inputRows == |records|
    && r.validRows == |Places(records, IsValid)|
    && r.dlqRows == |Places(records, IsRejected)|
    && r.tombstones == |Places(records, IsTombstone)|
    && (r.maxTs.None? <==> forall d {:trigger d in records} :: d in records ==> !d.payload.Valid?)
    && (r.maxTs.Some? ==> IsLastTime(records, r.maxTs.value))
    && r.watermark == if r.maxTs.Some? && r.maxTs.value - lateness > before then r.maxTs.value - lateness else before
  }

  /** The latest source timestamp of the valid records. */
  ghost predicate IsLastTime(records: seq<Decoded>, t: int) {
    && (forall d {:trigger d in records} :: d in records && d.payload.Valid? ==> d.payload.change.tsMs <= t)
    && (exists d :: d in records && d.payload.Valid? && d.payload.change.tsMs == t)
  }

  lemma EventOf(records: seq<Decoded>, d: Decoded)
    requires d in records && d.payload.Valid?
    ensures ChangeEvent(d.payload.id, d.payload.change, d.topic, d.partition, d.offset) in ValidEvents(records)
  {
    ValidEventsExact(records, ChangeEvent(d.payload.id, d.payload.change, d.topic, d.partition, d.offset));
  }

  lemma TimesOf(records: seq<Decoded>)
    ensures ValidEvents(records) == [] <==> forall d {:trigger d in records} :: d in records ==> !d.payload.Valid?
    ensures ValidEvents(records) != [] ==> IsLastTime(records, MaxTs(ValidEvents(records)))
  {
    var valid := ValidEvents(records);
    forall d | d in records && d.payload.Valid?
      ensures valid != [] && d.payload.change.tsMs <= MaxTs(valid)
    {
      EventOf(records, d);
    }
    if valid != [] {
      var e :| e in valid && e.change.tsMs == MaxTs(valid);
      ValidEventsExact(records, e);
    }
  }

  /** Every batch record counts its records and knows their latest time. */
  lemma RecordCountsRecords(cfg: Config, job: Job)
    ensures CountsRecords(RecordOf(cfg, job), job.records, job.watermark, cfg.lateness)
  {
    PayloadPlaces(job.records);
    TimesOf(job.records);
  }

  lemma LabelCounts(plan: Plan, model: Semantics.BatchPlan)
    requires SamePlan(plan, model) && Semantics.DistinctIds(model.toApply)
    requires model.outcomes.Keys == plan.Keys - model.priorDuplicates && model.priorDuplicates <= plan.Keys
    requires model.late <= model.outcomes.Keys
    requires Ids(model.toApply) == set id | id in model.outcomes && model.outcomes[id] == Semantics.Applied
    ensures CountOf(plan, Applied) == |model.toApply|
    ensures CountOf(plan, Superseded) == |set id | id in model.outcomes && model.outcomes[id] == Semantics.Superseded|
    ensures CountOf(plan, Stale) == |set id | id in model.outcomes && model.outcomes[id] == Semantics.Stale|
    ensures CountOf(plan, Duplicate) == |model.priorDuplicates| && LateRows(plan) == |model.late|
  {
    DistinctCount(model.toApply);
    assert (set id | id in plan && plan[id].outcome == Applied) == Ids(model.toApply);
    assert (set id | id in plan && plan[id].outcome == Superseded) ==
           set id | id in model.outcomes && model.outcomes[id] == Semantics.Superseded;
    assert (set id | id in plan && plan[id].outcome == Stale) ==
           set id | id in model.outcomes && model.outcomes[id] == Semantics.Stale;
    assert (set id | id in plan && plan[id].outcome == Duplicate) == model.priorDuplicates;
    assert (set id | id in plan && plan[id].outcome != Duplicate && plan[id].late) == model.late;
  }

  lemma ModelShape(model: Semantics.BatchPlan, batchId: int, valid: seq<ChangeEvent>, silver: map<Key, Semantics.Row>,
                   bronze: map<EventId, int>, watermark: int, lateness: int)
    requires Semantics.IsPlanOf(model, batchId, valid, silver, bronze, watermark, lateness)
    ensures model.outcomes.Keys == Ids(valid) - model.priorDuplicates && model.priorDuplicates <= Ids(valid)
    ensures model.late <= model.outcomes.Keys && Semantics.DistinctIds(model.toApply)
    ensures Ids(model.toApply) == set id | id in model.outcomes && model.outcomes[id] == Semantics.Applied
  {
    hide Semantics.IsPlanOf;
    ModelWrites(model, batchId, valid, silver, bronze, watermark, lateness);
    ModelSets(model, batchId, valid, silver, bronze, watermark, lateness);
    forall id | id in model.outcomes && model.outcomes[id] == Semantics.Applied ensures id in Ids(model.toApply) {
      assert Kept(valid)[id] in model.toApply;
    }
  }

  lemma ModelSets(model: Semantics.BatchPlan, batchId: int, valid: seq<ChangeEvent>, silver: map<Key, Semantics.Row>,
                  bronze: map<EventId, int>, watermark: int, lateness: int)
    requires Semantics.IsPlanOf(model, batchId, valid, silver, bronze, watermark, lateness)
    ensures model.priorDuplicates <= Ids(valid) && model.late <= model.outcomes.Keys
  {
  }

  /** The label columns of a batch record are the counts of any answer of plan_batch about the same tables. */
  lemma RecordCountsLabels(h: History, cfg: Config, lake: Lake, stamp: Stamp, records: seq<Decoded>, watermark: int,
                           model: Semantics.BatchPlan)
    requires From(h, ValidEvents(records)) && Current(h, lake, stamp)
    requires DistinctRanks(Kept(ValidEvents(records)), PriorDups(ValidEvents(records), lake.bronze, stamp))
    requires Semantics.IsPlanOf(model, stamp.batch, ValidEvents(records), ModelSilver(lake.silver, stamp.epoch),
                                ModelBronze(lake.bronze, stamp.epoch), watermark, cfg.lateness)
    ensures CountsLabels(RecordOf(cfg, StartJob(lake, stamp, records, watermark)), model)
  {
    hide PlanOn, SamePlan, Current, DistinctRanks, Semantics.IsPlanOf, CountOf, LateRows;
    var valid := ValidEvents(records);
    var plan := PlanOn(valid, lake.silver, lake.bronze, stamp, watermark);
    PlansAgree(h, lake, valid, stamp, watermark, cfg.lateness, model);
    PlanShape(valid, lake.silver, lake.bronze, stamp, watermark);
    ModelShape(model, stamp.batch, valid, ModelSilver(lake.silver, stamp.epoch), ModelBronze(lake.bronze, stamp.epoch),
               watermark, cfg.lateness);
    LabelCounts(plan, model);
    assert |plan| == |plan.Keys|;
  }

  // ------------------------------------------------------------------------ over runs

  /** What a batch record has to say about its batch, apart from the attempt counter. */
  ghost predicate Accounts(r: BatchRecord, cfg: Config, lake: Lake, stamp: Stamp, records: seq<Decoded>) {
    && CountsRecords(r, records, LookupWatermark(lake.records, stamp), cfg.lateness)
    && forall model {:trigger CountsLabels(r, model)} ::
         Answers(model, cfg, lake, stamp, records) ==> CountsLabels(r, model)
  }

  lemma JobAccounts(h: History, cfg: Config, lake: Lake, stamp: Stamp, records: seq<Decoded>)
    requires Ready(h, cfg, lake, stamp, records)
    ensures Accounts(RecordOf(cfg, FirstJob(lake, stamp, records)), cfg, lake, stamp, records)
  {
    hide CountsLabels, CountsRecords, RecordOf, Ready, Current, DistinctRanks, Semantics.IsPlanOf, PlanOn;
    ReadyRanks(h, cfg, lake, stamp, records);
    RecordCountsRecords(cfg, FirstJob(lake, stamp, records));
    var r := RecordOf(cfg, FirstJob(lake, stamp, records));
    forall model | Answers(model, cfg, lake, stamp, records) ensures CountsLabels(r, model) {
      RecordCountsLabels(h, cfg, lake, stamp, records, LookupWatermark(lake.records, stamp), model);
    }
  }

  lemma AttemptsAside(r: BatchRecord, n: nat, cfg: Config, lake: Lake, stamp: Stamp, records: seq<Decoded>)
    requires Accounts(r, cfg, lake, stamp, records)
    ensures Accounts(r.(attempts := n), cfg, lake, stamp, records)
  {
    hide Answers;
    forall model | Answers(model, cfg, lake, stamp, records) ensures CountsLabels(r.(attempts := n), model) {
      assert CountsLabels(r, model);
    }
  }

  lemma CleanBatchRecords(h: History, cfg: Config, lake: Lake, stamp: Stamp, records: seq<Decoded>, other: Stamp)
    requires DistinctLsns(h) && Deliverable(h, cfg, records) && stamp !in lake.records
    ensures var next := CleanBatch(h, cfg, lake, stamp, records).records;
            Get(next, other) == if other == stamp && records != []
                                then Some(RecordOf(cfg, FirstJob(lake, stamp, records))) else Get(lake.records, other)
  {
    hide PlanOn, Winners, MergeAll, Append, RecordOf, OnePerKey;
    if records != [] { JobIsOnePerKey(h, cfg, lake, stamp, records, LookupWatermark(lake.records, stamp)); }
  }

  /** The crash-free run leaves one record for each batch that had records. */
  lemma {:induction false} CleanRecords(h: History, cfg: Config, base: Lake, epoch: string, log: seq<seq<Decoded>>,
                                        n: nat)
    requires DistinctLsns(h) && LogOk(h, cfg, log) && LakeOk(h, base) && StampsBefore(base, epoch, 0)
    ensures Stamp(epoch, n) in CleanRun(h, cfg, base, epoch, log).records <==> n < |log| && log[n] != []
    ensures n < |log| && log[n] != [] ==>
              Accounts(CleanRun(h, cfg, base, epoch, log).records[Stamp(epoch, n)], cfg,
                       Before(h, cfg, base, epoch, log, n), Stamp(epoch, n), log[n])
  {
    hide CleanBatch, Deliverable, LakeOk, DistinctLsns, Ready, Accounts, RecordOf, FirstJob;
    if log != [] {
      var m := |log| - 1;
      var before := CleanRun(h, cfg, base, epoch, log[..m]);
      CleanRecords(h, cfg, base, epoch, log[..m], n);
      CleanRunOk(h, cfg, base, epoch, log[..m]);
      CleanBatchRecords(h, cfg, before, Stamp(epoch, m), log[m], Stamp(epoch, n));
      if n < m {
        assert log[..m][..n] == log[..n];
      } else if n == m {
        BeforeIsReady(h, cfg, base, epoch, log, m);
        JobAccounts(h, cfg, before, Stamp(epoch, m), log[m]);
      }
    }
  }

  /** In every run, between batches: each committed batch of the epoch that had records, and no other, has its batch
      record, and however often it was written the record accounts for the batch. */
  lemma BatchRecordsOfEveryRun(h: History, cfg: Config, epoch: string, actions: seq<Action>, s: State, n: nat)
    requires DistinctLsns(h) && IsRun(h, cfg, epoch, actions, s) && s.pending.None?
    ensures LogOk(h, cfg, s.log)
    ensures Stamp(s.epoch, n) in s.lake.records <==> n < |s.log| && s.log[n] != []
    ensures n < |s.log| && s.log[n] != [] ==>
              Accounts(s.lake.records[Stamp(s.epoch, n)], cfg, Before(h, cfg, s.base, s.epoch, s.log, n),
                       Stamp(s.epoch, n), s.log[n])
  {
    hide IsRun, Inv, CleanRun, Accounts, LakeOk, StampsBefore, DistinctLsns, Deliverable, Before;
    RunKeeps(h, cfg, epoch, actions, s);
    BatchesOk(h, cfg, s);
    CrashFreeRefinement(h, cfg, epoch, actions, s);
    CleanRecords(h, cfg, s.base, s.epoch, s.log, n);
    var clean, stamp := CleanRun(h, cfg, s.base, s.epoch, s.log).records, Stamp(s.epoch, n);
    assert Get(Forget(s.lake.records), stamp) == Get(Forget(clean), stamp);
    if stamp in clean {
      AttemptsAside(clean[stamp], s.lake.records[stamp].attempts, cfg, Before(h, cfg, s.base, s.epoch, s.log, n), stamp,
                    s.log[n]);
    }
  }
}
