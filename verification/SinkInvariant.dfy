/** Every action keeps the invariant, so every run does. */
module SinkInvariant {
  import opened Basics
  import opened Events
  import opened SinkPlan
  import opened SinkBatch
  import opened SinkRecovery
  import opened SinkSafety
  import opened SinkRun

  /** One MERGE statement only raises rows, and stamps the rows it writes. */
  lemma MergeTableRows(s: Silver, winners: map<Key, ChangeEvent>, table: string, stamp: Stamp)
    ensures var s' := MergeTable(s, winners, table, stamp);
            && Raised(s, s')
            && (forall k :: k in s' ==>
                  (k in s && s'[k] == s[k]) || (s'[k].stamp == stamp && k in winners && s'[k].eventId == winners[k].id))
  {
    var s' := MergeTable(s, winners, table, stamp);
    forall k | k in s' ensures (k in s && s'[k] == s[k]) ||
                               (s'[k].stamp == stamp && k in winners && s'[k].eventId == winners[k].id)
    {
      assert Get(s', k) == Some(s'[k]);
    }
    forall k | k in s ensures k in s' && (s'[k] == s[k] || s'[k].sourceLsn > s[k].sourceLsn) {
      assert Get(s', k).Some?;
    }
  }

  /** An append only adds rows, and stamps them. */
  lemma AppendRows(bronze: Bronze, plan: Plan, valid: seq<ChangeEvent>, stamp: Stamp)
    requires forall id :: id in plan ==> plan[id].event.id == id
    ensures var b := Append(bronze, plan, valid, stamp);
            && bronze <= b
            && (forall r :: r in b ==> r in bronze || (r.stamp == stamp && r.event.id in plan))
            && (forall id :: id in plan && plan[id].outcome != Duplicate ==> exists r :: r in b && r.event.id == id)
  {
    var lo, hi := MinTs(valid), MaxTs(valid);
    var added := FreshRows(bronze, plan, lo, hi, stamp);
    var b := Append(bronze, plan, valid, stamp);
    forall r | r in b ensures r in bronze || (r.stamp == stamp && r.event.id in plan) {
      assert r in bronze || r in added;
    }
    forall id | id in plan && plan[id].outcome != Duplicate ensures exists r :: r in b && r.event.id == id {
      if InLookup(bronze, id, lo, hi) {
        var r :| r in bronze && r.event.id == id;
        assert r in b;
      } else {
        var r := BronzeRow(plan[id].event, plan[id].outcome, plan[id].late, stamp);
        assert r in added && r in b;
      }
    }
  }

  lemma MergeTableEpochs(lake: Lake, winners: map<Key, ChangeEvent>, table: string, stamp: Stamp, epochs: set<string>)
    requires EpochsKnown(lake, epochs) && stamp.epoch in epochs
    ensures EpochsKnown(lake.(silver := MergeTable(lake.silver, winners, table, stamp)), epochs)
  {
    MergeTableRows(lake.silver, winners, table, stamp);
  }

  lemma AppendEpochs(lake: Lake, plan: Plan, valid: seq<ChangeEvent>, stamp: Stamp, epochs: set<string>)
    requires EpochsKnown(lake, epochs) && stamp.epoch in epochs
    requires forall id :: id in plan ==> plan[id].event.id == id
    ensures EpochsKnown(lake.(bronze := Append(lake.bronze, plan, valid, stamp)), epochs)
  {
    AppendRows(lake.bronze, plan, valid, stamp);
  }

  lemma ExecEpochs(cfg: Config, lake: Lake, job: Job, k: nat, epochs: set<string>)
    requires OnePerKey(job.plan) && k < WriteCount(cfg)
    requires forall id :: id in job.plan ==> job.plan[id].event.id == id
    requires EpochsKnown(lake, epochs) && job.stamp.epoch in epochs
    ensures EpochsKnown(Exec(cfg, lake, job, k), epochs)
  {
    if k < |cfg.tables| {
      MergeTableEpochs(lake, Winners(job.plan), cfg.tables[k], job.stamp, epochs);
    } else if k == |cfg.tables| {
      AppendEpochs(lake, job.plan, ValidEvents(job.records), job.stamp, epochs);
    }
  }

  lemma ExecRaises(cfg: Config, lake: Lake, job: Job, k: nat)
    requires OnePerKey(job.plan) && k < WriteCount(cfg)
    requires forall id :: id in job.plan ==> job.plan[id].event.id == id
    ensures Raised(lake.silver, Exec(cfg, lake, job, k).silver) && lake.bronze <= Exec(cfg, lake, job, k).bronze
  {
    if k < |cfg.tables| {
      MergeTableRows(lake.silver, Winners(job.plan), cfg.tables[k], job.stamp);
    } else if k == |cfg.tables| {
      AppendRows(lake.bronze, job.plan, ValidEvents(job.records), job.stamp);
    }
  }

  lemma OfferKeeps(h: History, cfg: Config, s: State, records: seq<Decoded>)
    requires Inv(h, cfg, s) && Enabled(h, cfg, s, Offer(records))
    ensures Inv(h, cfg, Next(cfg, s, Offer(records)))
  {
    if records != [] {
      var start := CleanRun(h, cfg, s.base, s.epoch, s.log);
      CleanRunOk(h, cfg, s.base, s.epoch, s.log);
      FirstJobOk(h, cfg, start, StampOf(s), records);
      SameIsInFlight(start, After(cfg, start, FirstJob(start, StampOf(s), records)), s.lake);
    }
  }

  lemma BeginKeeps(h: History, cfg: Config, s: State)
    requires Inv(h, cfg, s) && Enabled(h, cfg, s, Begin)
    ensures Inv(h, cfg, Next(cfg, s, Begin))
  {
    var records := s.pending.value;
    if records != [] {
      var start := CleanRun(h, cfg, s.base, s.epoch, s.log);
      CleanRunOk(h, cfg, s.base, s.epoch, s.log);
      CacheIsLookup(s);
      PlanStable(h, cfg, start, StampOf(s), records, s.lake);
      assert cfg.tables[..0] == [];
    }
  }

  lemma WriteKeepsCache(cfg: Config, s: State, a: Action)
    requires s.phase.Running? && s.phase.pc < WriteCount(cfg) && OnePerKey(s.phase.job.plan)
    requires s.phase.job.stamp == StampOf(s) && CacheOk(s) && (a.Write? || a.Ambiguous?)
    ensures CacheOk(Next(cfg, s, a))
  {
  }

  lemma WriteKeepsBatch(h: History, cfg: Config, start: Lake, s: State, a: Action)
    requires s.pending.Some? && s.phase.Running? && (a.Write? || a.Ambiguous?)
    requires BatchInv(h, cfg, start, s)
    ensures BatchInv(h, cfg, start, Next(cfg, s, a))
  {
    hide Exec, After, Progress, InFlight, FirstJob, Advance;
    var job, pc := s.phase.job, s.phase.pc;
    var done := After(cfg, start, job);
    var lake := Exec(cfg, s.lake, job, pc);
    WriteKeeps(cfg, start, job, s.lake, pc);
    LessProgress(cfg, start, done, lake, pc + 1, pc);
    ProgressIsInFlight(cfg, start, done, lake, pc + 1);
    if pc + 1 == WriteCount(cfg) { AllWritten(cfg, start, done, lake); }
  }

  lemma RunningBatch(h: History, cfg: Config, start: Lake, s: State)
    requires BatchInv(h, cfg, start, s) && s.phase.Running?
    ensures s.pending.Some? && s.phase.job.stamp == StampOf(s) && s.phase.pc < WriteCount(cfg)
    ensures OnePerKey(s.phase.job.plan) && forall id :: id in s.phase.job.plan ==> s.phase.job.plan[id].event.id == id
  {
  }

  lemma WriteKeepsInv(h: History, cfg: Config, s: State, a: Action)
    requires Inv(h, cfg, s) && Enabled(h, cfg, s, a) && (a.Write? || a.Ambiguous?)
    ensures Inv(h, cfg, Next(cfg, s, a))
  {
    hide BatchInv, CacheOk, EpochsKnown, LakeOk, StampsBefore, Exec, Advance, LogOk, DistinctLsns, Deliverable;
    hide OnePerKey;
    var start := CleanRun(h, cfg, s.base, s.epoch, s.log);
    RunningBatch(h, cfg, start, s);
    WriteKeepsBatch(h, cfg, start, s, a);
    WriteKeepsCache(cfg, s, a);
    ExecEpochs(cfg, s.lake, s.phase.job, s.phase.pc, s.epochs);
  }

  lemma CommitKeeps(h: History, cfg: Config, s: State)
    requires Inv(h, cfg, s) && Enabled(h, cfg, s, Commit)
    ensures Inv(h, cfg, Next(cfg, s, Commit))
  {
    var log := s.log + [s.pending.value];
    assert log[..|s.log|] == s.log;
    assert LogOk(h, cfg, log);
  }

  lemma FreshEpoch(h: History, cfg: Config, s: State)
    requires DistinctLsns(h) && LakeOk(h, s.lake) && EpochsKnown(s.lake, s.epochs - {s.epoch})
    requires s.base == s.lake && s.log == [] && s.batchId == 0 && s.pending.None? && s.phase.Idle? && s.cache.None?
    requires s.epoch in s.epochs
    ensures Inv(h, cfg, s)
  {
  }

  /** The lake a wipe leaves behind, half-finished batch included, is a sound base for the next epoch. */
  lemma WipeKeeps(h: History, cfg: Config, s: State, epoch: string)
    requires Inv(h, cfg, s) && epoch !in s.epochs
    ensures Inv(h, cfg, Next(cfg, s, Wipe(epoch)))
  {
    InvLakeOk(h, cfg, s);
    assert s.epochs + {epoch} - {epoch} == s.epochs;
    FreshEpoch(h, cfg, Next(cfg, s, Wipe(epoch)));
  }

  lemma {:induction false} NoBatchesNoChange(h: History, cfg: Config, base: Lake, epoch: string, n: nat)
    requires DistinctLsns(h)
    ensures LogOk(h, cfg, NoBatches(n)) && CleanRun(h, cfg, base, epoch, NoBatches(n)) == base
  {
    hide DistinctLsns;
    if n > 0 {
      NoBatchesNoChange(h, cfg, base, epoch, n - 1);
      assert NoBatches(n)[..n - 1] == NoBatches(n - 1);
    }
  }

  /** A new epoch that goes on with the current batch number treats whatever earlier attempts wrote as history. */
  lemma LoseEpochKeeps(h: History, cfg: Config, s: State, epoch: string)
    requires Inv(h, cfg, s) && epoch !in s.epochs
    ensures Inv(h, cfg, Next(cfg, s, LoseEpoch(epoch)))
  {
    var next := Next(cfg, s, LoseEpoch(epoch));
    InvLakeOk(h, cfg, s);
    NoBatchesNoChange(h, cfg, s.lake, epoch, s.batchId);
    UnknownEpoch(s.lake, s.epochs, epoch, 0);
    UnknownEpoch(s.lake, s.epochs, epoch, s.batchId);
    MoreEpochs(s.lake, s.epochs, s.epochs + {epoch});
    RestartedBatch(h, cfg, next);
  }

  lemma UnknownEpoch(lake: Lake, epochs: set<string>, epoch: string, batch: nat)
    requires EpochsKnown(lake, epochs) && epoch !in epochs
    ensures StampsBefore(lake, epoch, batch)
  {
  }

  lemma MoreEpochs(lake: Lake, epochs: set<string>, more: set<string>)
    requires EpochsKnown(lake, epochs) && epochs <= more
    ensures EpochsKnown(lake, more)
  {
  }

  /** A batch about to run for the first time under its stamp. */
  lemma RestartedBatch(h: History, cfg: Config, s: State)
    requires DistinctLsns(h) && LakeOk(h, s.lake) && StampsBefore(s.lake, s.epoch, s.batchId) && s.phase.Idle?
    requires s.pending.Some? ==> Deliverable(h, cfg, s.pending.value)
    ensures BatchInv(h, cfg, s.lake, s)
  {
    if s.pending.Some? && s.pending.value != [] {
      FirstJobOk(h, cfg, s.lake, StampOf(s), s.pending.value);
      SameIsInFlight(s.lake, After(cfg, s.lake, FirstJob(s.lake, StampOf(s), s.pending.value)), s.lake);
    }
  }

  /** A crash only forgets what was in memory. */
  lemma CrashKeeps(h: History, cfg: Config, s: State)
    requires Inv(h, cfg, s)
    ensures Inv(h, cfg, Next(cfg, s, Crash))
  {
    hide LakeOk, StampsBefore, EpochsKnown, LogOk, DistinctLsns, Deliverable, JobOk, InFlight, Progress, FirstJob;
  }

  lemma StepKeeps(h: History, cfg: Config, s: State, a: Action)
    requires Inv(h, cfg, s) && Enabled(h, cfg, s, a)
    ensures Inv(h, cfg, Next(cfg, s, a))
  {
    hide Inv, Next, Deliverable;
    match a
    case Offer(records) => OfferKeeps(h, cfg, s, records);
    case Begin => BeginKeeps(h, cfg, s);
    case Write => WriteKeepsInv(h, cfg, s, a);
    case Ambiguous => WriteKeepsInv(h, cfg, s, a);
    case Crash => CrashKeeps(h, cfg, s);
    case Commit => CommitKeeps(h, cfg, s);
    case Wipe(epoch) => WipeKeeps(h, cfg, s, epoch);
    case LoseEpoch(epoch) => LoseEpochKeeps(h, cfg, s, epoch);
  }

  lemma {:induction false} RunKeeps(h: History, cfg: Config, epoch: string, actions: seq<Action>, s: State)
    requires DistinctLsns(h) && IsRun(h, cfg, epoch, actions, s)
    ensures Inv(h, cfg, s)
  {
    if actions == [] {
      MapsEqualByGet(Forget(EmptyLake.records), Forget(EmptyLake.records));
    } else {
      var n := |actions| - 1;
      var p :| IsRun(h, cfg, epoch, actions[..n], p) && Enabled(h, cfg, p, actions[n]) && s == Next(cfg, p, actions[n]);
      RunKeeps(h, cfg, epoch, actions[..n], p);
      StepKeeps(h, cfg, p, actions[n]);
    }
  }

  // ---------------------------------------------------------------- main theorems

  /** Crash and retry refinement. In every run, whenever no batch is pending, silver, bronze with its labels and
      the DLQ are those of the crash-free run of the epoch's batches, and so are the batch records but for their
      attempt counters. */
  lemma CrashFreeRefinement(h: History, cfg: Config, epoch: string, actions: seq<Action>, s: State)
    requires DistinctLsns(h) && IsRun(h, cfg, epoch, actions, s) && s.pending.None?
    ensures LogOk(h, cfg, s.log)
    ensures var clean := CleanRun(h, cfg, s.base, s.epoch, s.log);
            && s.lake.silver == clean.silver
            && s.lake.bronze == clean.bronze
            && s.lake.dlq == clean.dlq
            && Forget(s.lake.records) == Forget(clean.records)
  {
    RunKeeps(h, cfg, epoch, actions, s);
  }

  /** Every attempt at a batch, however many were killed before it, runs the plan of the first attempt. */
  lemma EveryAttemptPlansTheSame(h: History, cfg: Config, epoch: string, actions: seq<Action>, s: State)
    requires DistinctLsns(h) && IsRun(h, cfg, epoch, actions, s) && s.phase.Running?
    ensures s.pending.Some? && LogOk(h, cfg, s.log)
    ensures s.phase.job == FirstJob(CleanRun(h, cfg, s.base, s.epoch, s.log), StampOf(s), s.pending.value)
  {
    RunKeeps(h, cfg, epoch, actions, s);
  }

  /** At every boundary between two writes of every run, wipes included: one bronze row per event, silver rows that
      are what their event says, and no bronze event newer than the silver row of its key. */
  lemma SilverDominatesBronze(h: History, cfg: Config, epoch: string, actions: seq<Action>, s: State)
    requires DistinctLsns(h) && IsRun(h, cfg, epoch, actions, s)
    ensures SilverOk(h, s.lake.silver) && BronzeOk(h, s.lake.bronze) && Dominated(s.lake.bronze, s.lake.silver)
  {
    RunKeeps(h, cfg, epoch, actions, s);
    InvLakeOk(h, cfg, s);
  }

  /** The cached watermark never differs from the durable one, after empty batches and restarts too. */
  lemma CacheNeverStale(h: History, cfg: Config, epoch: string, actions: seq<Action>, s: State)
    requires DistinctLsns(h) && IsRun(h, cfg, epoch, actions, s)
    ensures WatermarkBefore(s) == LookupWatermark(s.lake.records, StampOf(s))
  {
    RunKeeps(h, cfg, epoch, actions, s);
    CacheIsLookup(s);
  }

  /** No action replaces a silver row, tombstones included, except by one with a strictly higher LSN, and no
      action removes a bronze row. */
  lemma StepOnlyRaises(h: History, cfg: Config, s: State, a: Action)
    requires Inv(h, cfg, s) && Enabled(h, cfg, s, a)
    ensures Raised(s.lake.silver, Next(cfg, s, a).lake.silver)
    ensures s.lake.bronze <= Next(cfg, s, a).lake.bronze
  {
    hide Exec, LakeOk, StampsBefore, EpochsKnown, LogOk, DistinctLsns, Deliverable, BatchInv, CleanRun, OnePerKey;
    if a.Write? || a.Ambiguous? {
      RunningBatch(h, cfg, CleanRun(h, cfg, s.base, s.epoch, s.log), s);
      ExecRaises(cfg, s.lake, s.phase.job, s.phase.pc);
    }
  }
}
