/** The streaming job as a state machine: crashes, ambiguous commits and checkpoint wipes at any point. */
module SinkRun {
  import opened Basics
  import opened Events
  import opened SinkPlan
  import opened SinkBatch
  import opened SinkRecovery
  import opened SinkSafety

  /** The in-memory watermark of the last finished batch. */
  datatype Cache = Cache(watermark: int, batch: nat)

  datatype Phase =
    | Idle
    | Running(job: Job, pc: nat)
    | Finished

  /** One committed execution of the k-th write of a job. */
  datatype Written = Written(job: Job, k: nat)

  /** `pending` is offsets/N in the checkpoint. `base`, `log`, `epochs`, `delivered` and `committed` are history:
      the lake when the epoch began, the batches it committed, the epochs used, the event ids ever offered and
      the event ids of committed batches; `writes` lists every write that ever committed, of all epochs. */
  datatype State = State(lake: Lake, epoch: string, batchId: nat, pending: Option<seq<Decoded>>, phase: Phase,
                         cache: Option<Cache>, base: Lake, log: seq<seq<Decoded>>, epochs: set<string>,
                         delivered: set<EventId>, committed: set<EventId>, writes: seq<Written>)

  datatype Action =
    | Offer(records: seq<Decoded>)   // Spark writes offsets/N
    | Begin                          // process_batch decodes and plans
    | Write                          // the next write commits
    | Ambiguous                      // the next write commits but reports a conflict, and is retried
    | Crash                          // the driver dies; only the lake and the checkpoint survive
    | Commit                         // Spark writes commits/N
    | Wipe(epoch: string)            // the checkpoint is deleted; a new epoch starts at batch 0
    | LoseEpoch(epoch: string)       // only the epoch file is lost; a new epoch goes on with batch N

  /** The batch numbers an epoch did not run count as empty batches. */
  function NoBatches(n: nat): (log: seq<seq<Decoded>>)
    ensures |log| == n && forall i :: 0 <= i < n ==> log[i] == []
  {
    seq(n, _ => [])
  }

  function StampOf(s: State): Stamp {
    Stamp(s.epoch, s.batchId)
  }

  function WatermarkBefore(s: State): int {
    if s.cache.Some? && s.cache.value.batch + 1 == s.batchId then s.cache.value.watermark
    else LookupWatermark(s.lake.records, StampOf(s))
  }

  function Init(epoch: string): State {
    State(EmptyLake, epoch, 0, None, Idle, None, EmptyLake, [], {epoch}, {}, {}, [])
  }

  ghost predicate Enabled(h: History, cfg: Config, s: State, a: Action) {
    match a
    case Offer(records) => s.pending.None? && Deliverable(h, cfg, records)
    case Begin => s.pending.Some? && s.phase.Idle?
    case Write => s.phase.Running? && s.phase.pc < WriteCount(cfg) && OnePerKey(s.phase.job.plan)
    case Ambiguous => s.phase.Running? && s.phase.pc < WriteCount(cfg) && OnePerKey(s.phase.job.plan)
    case Crash => true
    case Commit => s.phase.Finished? && s.pending.Some?
    case Wipe(epoch) => epoch !in s.epochs
    case LoseEpoch(epoch) => epoch !in s.epochs
  }

  function Next(cfg: Config, s: State, a: Action): State
    requires a.Write? || a.Ambiguous? ==>
      s.phase.Running? && s.phase.pc < WriteCount(cfg) && OnePerKey(s.phase.job.plan)
    requires a.Begin? || a.Commit? ==> s.pending.Some?
  {
    match a
    case Offer(records) =>
      s.(pending := Some(records), phase := Idle, delivered := s.delivered + Ids(ValidEvents(records)))
    case Begin =>
      if s.pending.value == [] then s.(phase := Finished)
      else s.(phase := Running(StartJob(s.lake, StampOf(s), s.pending.value, WatermarkBefore(s)), 0))
    case Write =>
      var job := s.phase.job;
      var s' := s.(lake := Exec(cfg, s.lake, job, s.phase.pc), writes := s.writes + [Written(job, s.phase.pc)]);
      if s.phase.pc + 1 < WriteCount(cfg) then s'.(phase := Running(job, s.phase.pc + 1))
      else s'.(phase := Finished,
               cache := Some(Cache(Advance(job.watermark, ValidEvents(job.records), cfg.lateness), s.batchId)))
    case Ambiguous =>
      s.(lake := Exec(cfg, s.lake, s.phase.job, s.phase.pc),
         writes := s.writes + [Written(s.phase.job, s.phase.pc)])
    case Crash =>
      s.(phase := Idle, cache := None)
    case Commit =>
      s.(pending := None, phase := Idle, batchId := s.batchId + 1, log := s.log + [s.pending.value],
         committed := s.committed + Ids(ValidEvents(s.pending.value)))
    case Wipe(epoch) =>
      s.(epoch := epoch, batchId := 0, pending := None, phase := Idle, cache := None, base := s.lake, log := [],
         epochs := s.epochs + {epoch})
    case LoseEpoch(epoch) =>
      s.(epoch := epoch, phase := Idle, cache := None, base := s.lake, log := NoBatches(s.batchId),
         epochs := s.epochs + {epoch})
  }

  /** The state after a sequence of actions, each of which must be enabled where it happens. */
  ghost predicate IsRun(h: History, cfg: Config, epoch: string, actions: seq<Action>, s: State) {
    if actions == [] then s == Init(epoch)
    else
      var n := |actions| - 1;
      exists p :: IsRun(h, cfg, epoch, actions[..n], p) && Enabled(h, cfg, p, actions[n]) &&
                  s == Next(cfg, p, actions[n])
  }

  // --------------------------------------------------------- the crash-free reference

  ghost predicate LogOk(h: History, cfg: Config, log: seq<seq<Decoded>>) {
    forall i :: 0 <= i < |log| ==> Deliverable(h, cfg, log[i])
  }

  /** One batch, planned once and written once. */
  ghost function CleanBatch(h: History, cfg: Config, lake: Lake, stamp: Stamp, records: seq<Decoded>): Lake
    requires DistinctLsns(h) && Deliverable(h, cfg, records)
  {
    if records == [] then lake
    else
      JobIsOnePerKey(h, cfg, lake, stamp, records, LookupWatermark(lake.records, stamp));
      After(cfg, lake, FirstJob(lake, stamp, records))
  }

  /** The batches of one epoch in order, without a crash, a conflict or an in-memory cache. */
  ghost function CleanRun(h: History, cfg: Config, base: Lake, epoch: string, log: seq<seq<Decoded>>): Lake
    requires DistinctLsns(h) && LogOk(h, cfg, log)
  {
    if log == [] then base
    else
      var n := |log| - 1;
      CleanBatch(h, cfg, CleanRun(h, cfg, base, epoch, log[..n]), Stamp(epoch, n), log[n])
  }

  lemma CleanStamps(cfg: Config, lake: Lake, stamp: Stamp, records: seq<Decoded>)
    requires StampsBefore(lake, stamp.epoch, stamp.batch) && OnePerKey(FirstJob(lake, stamp, records).plan)
    ensures StampsBefore(After(cfg, lake, FirstJob(lake, stamp, records)), stamp.epoch, stamp.batch + 1)
  {
    hide After, StampsBefore, PlanOn;
    StampsDone(cfg, lake, FirstJob(lake, stamp, records));
  }

  lemma CleanBatchOk(h: History, cfg: Config, lake: Lake, stamp: Stamp, records: seq<Decoded>)
    requires DistinctLsns(h) && Deliverable(h, cfg, records) && Ready(h, cfg, lake, stamp, records)
    ensures var next := CleanBatch(h, cfg, lake, stamp, records);
            LakeOk(h, next) && StampsBefore(next, stamp.epoch, stamp.batch + 1)
  {
    if records != [] {
      hide After, StartJob, LakeOk, StampsBefore;
      JobIsOnePerKey(h, cfg, lake, stamp, records, LookupWatermark(lake.records, stamp));
      DoneOk(h, cfg, lake, stamp, records);
      CleanStamps(cfg, lake, stamp, records);
    }
  }

  lemma {:induction false} CleanRunOk(h: History, cfg: Config, base: Lake, epoch: string, log: seq<seq<Decoded>>)
    requires DistinctLsns(h) && LogOk(h, cfg, log) && LakeOk(h, base) && StampsBefore(base, epoch, 0)
    ensures LakeOk(h, CleanRun(h, cfg, base, epoch, log))
    ensures StampsBefore(CleanRun(h, cfg, base, epoch, log), epoch, |log|)
  {
    if log != [] {
      var n := |log| - 1;
      CleanRunOk(h, cfg, base, epoch, log[..n]);
      CleanBatchOk(h, cfg, CleanRun(h, cfg, base, epoch, log[..n]), Stamp(epoch, n), log[n]);
    }
  }

  // ------------------------------------------------------------------- the invariant

  /** Equal but for the attempt counters. */
  ghost predicate Same(a: Lake, b: Lake) {
    a.silver == b.silver && a.bronze == b.bronze && a.dlq == b.dlq && Forget(a.records) == Forget(b.records)
  }

  ghost predicate EpochsKnown(lake: Lake, epochs: set<string>) {
    && (forall k :: k in lake.silver ==> lake.silver[k].stamp.epoch in epochs)
    && (forall r :: r in lake.bronze ==> r.stamp.epoch in epochs)
    && (forall s :: s in lake.records ==> s.epoch in epochs)
  }

  /** The cached watermark is the one the batch record holds. */
  ghost predicate CacheOk(s: State) {
    s.cache.Some? ==>
      && s.cache.value.batch < s.batchId + (if s.phase.Finished? then 1 else 0)
      && Stamp(s.epoch, s.cache.value.batch) in s.lake.records
      && s.lake.records[Stamp(s.epoch, s.cache.value.batch)].watermark == s.cache.value.watermark
  }

  /** Where the current batch stands relative to the crash-free run of the batches before it. */
  ghost predicate BatchInv(h: History, cfg: Config, start: Lake, s: State) {
    if s.pending.None? then
      s.phase.Idle? && Same(s.lake, start)
    else if s.pending.value == [] then
      !s.phase.Running? && Same(s.lake, start)
    else
      var job := FirstJob(start, StampOf(s), s.pending.value);
      && JobOk(cfg, job)
      && InFlight(start, After(cfg, start, job), s.lake)
      && (s.phase.Running? ==>
            s.phase.job == job && s.phase.pc < WriteCount(cfg) &&
            Progress(cfg, start, After(cfg, start, job), s.lake, s.phase.pc))
      && (s.phase.Finished? ==> Same(s.lake, After(cfg, start, job)))
  }

  ghost predicate Inv(h: History, cfg: Config, s: State) {
    && DistinctLsns(h) && LogOk(h, cfg, s.log) && s.batchId == |s.log|
    && (s.pending.Some? ==> Deliverable(h, cfg, s.pending.value))
    && LakeOk(h, s.base) && StampsBefore(s.base, s.epoch, 0)
    && s.epoch in s.epochs && EpochsKnown(s.lake, s.epochs)
    && CacheOk(s)
    && BatchInv(h, cfg, CleanRun(h, cfg, s.base, s.epoch, s.log), s)
  }

  // ---------------------------------------------------------------- it is preserved

  lemma SameIsInFlight(start: Lake, done: Lake, lake: Lake)
    requires Same(lake, start) || Same(lake, done)
    ensures InFlight(start, done, lake)
  {
  }

  lemma AllWritten(cfg: Config, start: Lake, done: Lake, lake: Lake)
    requires Progress(cfg, start, done, lake, WriteCount(cfg))
    ensures Same(lake, done)
  {
  }

  /** The invariant of the lake, at every state of the machine. */
  lemma InvLakeOk(h: History, cfg: Config, s: State)
    requires Inv(h, cfg, s)
    ensures LakeOk(h, s.lake) && EpochsKnown(s.lake, s.epochs)
  {
    var start := CleanRun(h, cfg, s.base, s.epoch, s.log);
    CleanRunOk(h, cfg, s.base, s.epoch, s.log);
    if s.pending.Some? && s.pending.value != [] {
      var job := FirstJob(start, StampOf(s), s.pending.value);
      DoneOk(h, cfg, start, StampOf(s), s.pending.value);
      InFlightOk(h, start, After(cfg, start, job), s.lake);
    }
  }

  lemma PreviousRecordIsLatest(records: Records, stamp: Stamp)
    requires stamp.batch > 0 && Stamp(stamp.epoch, stamp.batch - 1) in records
    ensures LookupWatermark(records, stamp) == records[Stamp(stamp.epoch, stamp.batch - 1)].watermark
  {
    var earlier := EarlierBatches(records, stamp);
    assert Stamp(stamp.epoch, stamp.batch - 1).batch in earlier;
    assert IsMax(earlier, stamp.batch - 1);
  }

  /** The cached watermark always equals the lookup of the latest earlier batch record. */
  lemma CacheIsLookup(s: State)
    requires CacheOk(s)
    ensures WatermarkBefore(s) == LookupWatermark(s.lake.records, StampOf(s))
  {
    if s.cache.Some? && s.cache.value.batch + 1 == s.batchId {
      PreviousRecordIsLatest(s.lake.records, StampOf(s));
    }
  }
}
