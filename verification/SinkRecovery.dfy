/** An interrupted batch: what any mixture of finished, repeated and missing writes leaves behind. */
module SinkRecovery {
  import opened Basics
  import opened Events
  import opened SinkPlan
  import opened SinkBatch
  import Dlq

  /** The job a first attempt at the batch starts. */
  function FirstJob(lake: Lake, stamp: Stamp, records: seq<Decoded>): Job {
    StartJob(lake, stamp, records, LookupWatermark(lake.records, stamp))
  }

  /** Row by row, `s` is one of two silver states. */
  ghost predicate Between(s0: Silver, s1: Silver, s: Silver) {
    forall k :: Get(s, k) == Get(s0, k) || Get(s, k) == Get(s1, k)
  }

  /** The tables of `names` have reached `s1`. */
  ghost predicate Merged(names: seq<string>, s1: Silver, s: Silver) {
    forall k: Key :: k.table in names ==> Get(s, k) == Get(s1, k)
  }

  /** Whatever attempts at a batch that leads from `start` to `done` have left so far. */
  ghost predicate InFlight(start: Lake, done: Lake, lake: Lake) {
    && Between(start.silver, done.silver, lake.silver)
    && (lake.bronze == start.bronze || (lake.bronze == done.bronze && lake.silver == done.silver))
    && (lake.dlq == start.dlq || lake.dlq == done.dlq)
    && (Forget(lake.records) == Forget(start.records) || Forget(lake.records) == Forget(done.records))
  }

  /** In flight, with the writes before `pc` durable. */
  ghost predicate Progress(cfg: Config, start: Lake, done: Lake, lake: Lake, pc: nat) {
    var n := |cfg.tables|;
    && InFlight(start, done, lake)
    && Merged(cfg.tables[..if pc < n then pc else n], done.silver, lake.silver)
    && (pc > n ==> lake.bronze == done.bronze && lake.silver == done.silver)
    && (pc > n + 1 ==> lake.dlq == done.dlq)
    && (pc > n + 2 ==> Forget(lake.records) == Forget(done.records))
  }

  // ---------------------------------------------------------------- the same plan

  lemma JobIsOnePerKey(h: History, cfg: Config, lake: Lake, stamp: Stamp, records: seq<Decoded>, watermark: int)
    requires DistinctLsns(h) && Deliverable(h, cfg, records)
    ensures OnePerKey(StartJob(lake, stamp, records, watermark).plan)
  {
    var valid := ValidEvents(records);
    KeptIsFrom(h, valid);
    RanksFromLsns(h, Kept(valid), PriorDups(valid, lake.bronze, stamp));
    PlanIsOnePerKey(Kept(valid), PriorDups(valid, lake.bronze, stamp), Baselines(lake.silver, stamp), watermark);
  }

  lemma WatermarkReread(start: Records, records: Records, stamp: Stamp, record: BatchRecord)
    requires Forget(records) == Forget(start) || Forget(records) == Forget(Upsert(start, stamp, record))
    ensures LookupWatermark(records, stamp) == LookupWatermark(start, stamp)
  {
    forall s | s != stamp ensures Get(Forget(records), s) == Get(Forget(start), s) {
      assert Get(Forget(Upsert(start, stamp, record)), s) == Get(Forget(start), s);
    }
    WatermarkStable(records, start, stamp);
  }

  /** A later attempt, started from whatever earlier attempts left, makes the plan of the first attempt. */
  lemma PlanStable(h: History, cfg: Config, start: Lake, stamp: Stamp, records: seq<Decoded>, lake: Lake)
    requires Ready(h, cfg, start, stamp, records)
    requires OnePerKey(FirstJob(start, stamp, records).plan)
    requires InFlight(start, After(cfg, start, FirstJob(start, stamp, records)), lake)
    ensures FirstJob(lake, stamp, records) == FirstJob(start, stamp, records)
  {
    var job := FirstJob(start, stamp, records);
    var valid := ValidEvents(records);
    assert Baselines(lake.silver, stamp) == Baselines(start.silver, stamp) by {
      BaselinesStable(start.silver, MergeAll(start.silver, Winners(job.plan), stamp), lake.silver,
                      Winners(job.plan), stamp);
    }
    assert PriorDups(valid, lake.bronze, stamp) == PriorDups(valid, start.bronze, stamp) by {
      DupsStable(start.bronze, job.plan, valid, stamp);
    }
    WatermarkReread(start.records, lake.records, stamp, RecordOf(cfg, job));
  }

  // --------------------------------------------------------------- writes, repeated

  lemma EveryTableMerged(tables: seq<string>, s0: Silver, s1: Silver, s: Silver, winners: map<Key, ChangeEvent>,
                         stamp: Stamp)
    requires s1 == MergeAll(s0, winners, stamp)
    requires forall k: Key :: k in winners ==> k.table in tables
    requires Between(s0, s1, s) && Merged(tables, s1, s)
    ensures s == s1
  {
    forall k: Key ensures Get(s, k) == Get(s1, k) {
      assert Get(s, k) == Get(s0, k) || Get(s, k) == Get(s1, k);
    }
    MapsEqualByGet(s, s1);
  }

  /** One row under a repeated merge: a row that was already merged stays, any other is merged now. */
  lemma MergeRowAgain(row: Option<SilverRow>, e: ChangeEvent, stamp: Stamp)
    ensures MergeRow(Some(MergeRow(row, e, stamp)), e, stamp) == MergeRow(row, e, stamp)
  {
  }

  lemma MergeKeepsRow(table: string, s0: Silver, s1: Silver, s: Silver, winners: map<Key, ChangeEvent>, stamp: Stamp,
                      k: Key)
    requires s1 == MergeAll(s0, winners, stamp)
    requires Get(s, k) == Get(s0, k) || Get(s, k) == Get(s1, k)
    ensures var row := Get(MergeTable(s, winners, table, stamp), k);
            && (row == Get(s, k) || row == Get(s1, k))
            && (k.table == table ==> row == Get(s1, k))
            && (Get(s, k) == Get(s1, k) ==> row == Get(s1, k))
  {
    hide MergeRow;
    assert Get(s1, k) == if k in winners then Some(MergeRow(Get(s0, k), winners[k], stamp)) else Get(s0, k);
    if k in winners {
      MergeRowAgain(Get(s0, k), winners[k], stamp);
    }
  }

  /** A silver merge is harmless wherever it runs, and completes its table. */
  lemma MergeKeeps(names: seq<string>, table: string, s0: Silver, s1: Silver, s: Silver, winners: map<Key, ChangeEvent>,
                   stamp: Stamp)
    requires s1 == MergeAll(s0, winners, stamp)
    requires Between(s0, s1, s) && Merged(names, s1, s)
    ensures var s' := MergeTable(s, winners, table, stamp);
            Between(s0, s1, s') && Merged(names + [table], s1, s') && (s == s1 ==> s' == s1)
  {
    hide MergeAll, MergeTable;
    var s' := MergeTable(s, winners, table, stamp);
    forall k: Key
      ensures Get(s', k) == Get(s, k) || Get(s', k) == Get(s1, k)
      ensures k.table == table ==> Get(s', k) == Get(s1, k)
      ensures Get(s, k) == Get(s1, k) ==> Get(s', k) == Get(s1, k)
    {
      assert Get(s, k) == Get(s0, k) || Get(s, k) == Get(s1, k);
      MergeKeepsRow(table, s0, s1, s, winners, stamp, k);
    }
    if s == s1 { MapsEqualByGet(s', s1); }
  }

  lemma UpsertKeeps(start: Records, records: Records, stamp: Stamp, record: BatchRecord)
    requires Forget(records) == Forget(start) || Forget(records) == Forget(Upsert(start, stamp, record))
    ensures Forget(Upsert(records, stamp, record)) == Forget(Upsert(start, stamp, record))
  {
    if Forget(records) == Forget(start) {
      ForgetUpsert(records, start, stamp, record);
    } else {
      ForgetUpsert(records, Upsert(start, stamp, record), stamp, record);
      ForgetUpsertAgain(start, stamp, record);
    }
  }

  /** The job's events come from its records and stay inside the tables that have a contract. */
  ghost predicate JobOk(cfg: Config, job: Job) {
    && OnePerKey(job.plan)
    && (forall id :: id in job.plan ==> job.plan[id].event.id == id && job.plan[id].event in ValidEvents(job.records))
    && (forall id :: id in job.plan ==> job.plan[id].event.change.key.table in cfg.tables)
  }

  lemma WinnerTables(cfg: Config, job: Job)
    requires JobOk(cfg, job)
    ensures forall k: Key :: k in Winners(job.plan) ==> k.table in cfg.tables
  {
  }

  lemma FirstJobOk(h: History, cfg: Config, start: Lake, stamp: Stamp, records: seq<Decoded>)
    requires Ready(h, cfg, start, stamp, records)
    ensures JobOk(cfg, FirstJob(start, stamp, records))
  {
    JobIsOnePerKey(h, cfg, start, stamp, records, LookupWatermark(start.records, stamp));
  }

  lemma SilverReplaced(cfg: Config, start: Lake, done: Lake, lake: Lake, pc: nat, silver: Silver)
    requires pc < |cfg.tables| && Progress(cfg, start, done, lake, pc)
    requires Between(start.silver, done.silver, silver)
    requires Merged(cfg.tables[..pc] + [cfg.tables[pc]], done.silver, silver)
    requires lake.silver == done.silver ==> silver == done.silver
    ensures Progress(cfg, start, done, lake.(silver := silver), pc + 1)
  {
    assert cfg.tables[..pc + 1] == cfg.tables[..pc] + [cfg.tables[pc]];
  }

  lemma SilverWriteKeeps(cfg: Config, start: Lake, job: Job, lake: Lake, pc: nat)
    requires JobOk(cfg, job) && pc < |cfg.tables|
    requires Progress(cfg, start, After(cfg, start, job), lake, pc)
    ensures Progress(cfg, start, After(cfg, start, job), Exec(cfg, lake, job, pc), pc + 1)
  {
    var done := After(cfg, start, job);
    var winners := Winners(job.plan);
    MergeKeeps(cfg.tables[..pc], cfg.tables[pc], start.silver, done.silver, lake.silver, winners, job.stamp);
    SilverReplaced(cfg, start, done, lake, pc, MergeTable(lake.silver, winners, cfg.tables[pc], job.stamp));
  }

  lemma SilverComplete(cfg: Config, start: Lake, job: Job, lake: Lake, pc: nat)
    requires JobOk(cfg, job) && pc >= |cfg.tables|
    requires Progress(cfg, start, After(cfg, start, job), lake, pc)
    ensures lake.silver == After(cfg, start, job).silver
  {
    hide Winners, Append, Dlq.Merge, Upsert, Forget;
    WinnerTables(cfg, job);
    assert cfg.tables[..|cfg.tables|] == cfg.tables;
    EveryTableMerged(cfg.tables, start.silver, After(cfg, start, job).silver, lake.silver, Winners(job.plan),
                     job.stamp);
  }

  lemma LaterWriteKeeps(cfg: Config, start: Lake, job: Job, lake: Lake, pc: nat)
    requires JobOk(cfg, job) && |cfg.tables| <= pc < WriteCount(cfg)
    requires lake.silver == After(cfg, start, job).silver
    requires Progress(cfg, start, After(cfg, start, job), lake, pc)
    ensures Progress(cfg, start, After(cfg, start, job), Exec(cfg, lake, job, pc), pc + 1)
  {
    if pc == |cfg.tables| {
      AppendAgain(start.bronze, job.plan, ValidEvents(job.records), job.stamp);
    } else if pc == |cfg.tables| + 1 {
      Dlq.MergeIdempotent(start.dlq, Dlq.Sources(job.records, job.stamp.batch));
    } else {
      UpsertKeeps(start.records, lake.records, job.stamp, RecordOf(cfg, job));
    }
  }

  /** Every write keeps the batch in flight, counts as progress, and may be repeated after an ambiguous failure. */
  lemma WriteKeeps(cfg: Config, start: Lake, job: Job, lake: Lake, pc: nat)
    requires JobOk(cfg, job) && pc < WriteCount(cfg)
    requires Progress(cfg, start, After(cfg, start, job), lake, pc)
    ensures Progress(cfg, start, After(cfg, start, job), Exec(cfg, lake, job, pc), pc + 1)
  {
    if pc < |cfg.tables| {
      SilverWriteKeeps(cfg, start, job, lake, pc);
    } else {
      SilverComplete(cfg, start, job, lake, pc);
      LaterWriteKeeps(cfg, start, job, lake, pc);
    }
  }

  /** Having made some progress includes having made less. */
  lemma LessProgress(cfg: Config, start: Lake, done: Lake, lake: Lake, pc: nat, less: nat)
    requires less <= pc && Progress(cfg, start, done, lake, pc)
    ensures Progress(cfg, start, done, lake, less)
  {
  }

  lemma RepeatKeeps(cfg: Config, start: Lake, done: Lake, job: Job, lake: Lake, pc: nat)
    requires JobOk(cfg, job) && pc < WriteCount(cfg) && done == After(cfg, start, job)
    requires Progress(cfg, start, done, lake, pc)
    ensures Progress(cfg, start, done, Exec(cfg, lake, job, pc), pc)
    ensures Progress(cfg, start, done, Exec(cfg, lake, job, pc), pc + 1)
  {
    WriteKeeps(cfg, start, job, lake, pc);
    LessProgress(cfg, start, done, Exec(cfg, lake, job, pc), pc + 1, pc);
  }

  lemma NothingWritten(cfg: Config, start: Lake, done: Lake, lake: Lake)
    requires InFlight(start, done, lake)
    ensures Progress(cfg, start, done, lake, 0)
  {
    assert cfg.tables[..0] == [];
  }

  lemma ProgressIsInFlight(cfg: Config, start: Lake, done: Lake, lake: Lake, k: nat)
    requires Progress(cfg, start, done, lake, k)
    ensures InFlight(start, done, lake)
  {
  }
}
