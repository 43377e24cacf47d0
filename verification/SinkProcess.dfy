/** process_batch as the imperative code it is: a context that performs the writes in order, with retries. */
module SinkProcess {
  import opened Basics
  import opened Events
  import opened SinkPlan
  import opened SinkBatch
  import opened SinkRecovery
  import opened SinkRun
  import Dlq

  /** How one attempt at a write ends. A failure may be reported although the commit went through. */
  datatype Attempt =
    | Succeeded
    | Conflict(committed: bool)   // matches a retriable marker
    | Fatal(committed: bool)      // any other exception: it propagates

  predicate Committed(a: Attempt) {
    match a
    case Succeeded => true
    case Conflict(committed) => committed
    case Fatal(committed) => committed
  }

  const MAX_ATTEMPTS := 5

  ghost predicate ConflictsBefore(outcome: nat -> Attempt, n: nat) {
    forall i {:trigger outcome(i)} :: 1 <= i < n ==> outcome(i).Conflict?
  }

  /** The n-th attempt succeeds after nothing but conflicts. */
  ghost predicate SucceedsAt(outcome: nat -> Attempt, n: nat) {
    1 <= n <= 5 && outcome(n).Succeeded? && ConflictsBefore(outcome, n)
  }

  ghost predicate Succeeds(outcome: nat -> Attempt) {
    exists n :: SucceedsAt(outcome, n)
  }

  /** How many of the first n attempts committed, successes and reported failures alike. */
  function CountCommitted(outcome: nat -> Attempt, n: nat): nat {
    if n == 0 then 0 else CountCommitted(outcome, n - 1) + if Committed(outcome(n)) then 1 else 0
  }

  /** The attempts before this one ended in conflicts, `commits` of which had committed. */
  ghost predicate Trying(outcome: nat -> Attempt, attempt: nat, commits: nat) {
    1 <= attempt <= 5 && ConflictsBefore(outcome, attempt) && commits == CountCommitted(outcome, attempt - 1)
  }

  /** How the attempts end: with the first success, or after five conflicts or another exception. */
  ghost predicate Ends(outcome: nat -> Attempt, ok: bool, retries: nat, commits: nat) {
    && (ok <==> Succeeds(outcome))
    && (if ok then SucceedsAt(outcome, retries + 1)
        else ConflictsBefore(outcome, retries + 1) && (outcome(retries + 1).Fatal? || retries == 4))
    && commits == CountCommitted(outcome, retries + 1)
  }

  lemma NothingTried(outcome: nat -> Attempt)
    ensures Trying(outcome, 1, 0)
  {
  }

  lemma TryEnds(outcome: nat -> Attempt, attempt: nat, commits: nat, result: Attempt)
    requires Trying(outcome, attempt, commits) && result == outcome(attempt)
    ensures var now := commits + if Committed(result) then 1 else 0;
            match result
            case Succeeded => Ends(outcome, true, attempt - 1, now) && Committed(result)
            case Conflict(_) => if attempt == MAX_ATTEMPTS then Ends(outcome, false, attempt - 1, now)
                                else Trying(outcome, attempt + 1, now)
            case Fatal(_) => Ends(outcome, false, attempt - 1, now)
  {
    if outcome(attempt).Succeeded? {
      assert SucceedsAt(outcome, attempt);
    }
  }

  /** The effect of `n` committed executions of the k-th write. */
  function ExecTimes(cfg: Config, lake: Lake, job: Job, k: nat, n: nat): Lake
    requires OnePerKey(job.plan) && k < WriteCount(cfg)
  {
    if n == 0 then lake else Exec(cfg, ExecTimes(cfg, lake, job, k, n - 1), job, k)
  }

  /** The batch record is durable and carries the watermark after the job. */
  predicate Recorded(cfg: Config, lake: Lake, job: Job) {
    job.stamp in lake.records &&
    lake.records[job.stamp].watermark == Advance(job.watermark, ValidEvents(job.records), cfg.lateness)
  }

  /** `lake` is what n committed executions of the k-th write make of `before`, and if the writes before the k-th were
      durable there they still are. */
  ghost predicate Holds(cfg: Config, start: Lake, before: Lake, lake: Lake, job: Job, k: nat, n: nat)
    requires JobOk(cfg, job) && k < WriteCount(cfg)
  {
    && lake == ExecTimes(cfg, before, job, k, n)
    && (Progress(cfg, start, After(cfg, start, job), before, k) ==>
          Progress(cfg, start, After(cfg, start, job), lake, k))
  }

  /** So is the k-th; the last one has recorded the batch. */
  ghost predicate Reaches(cfg: Config, start: Lake, before: Lake, lake: Lake, job: Job, k: nat)
    requires JobOk(cfg, job) && k < WriteCount(cfg)
  {
    && (Progress(cfg, start, After(cfg, start, job), before, k) ==>
          Progress(cfg, start, After(cfg, start, job), lake, k + 1))
    && (k + 1 == WriteCount(cfg) ==> Recorded(cfg, lake, job))
  }

  lemma OkIsOnePerKey(cfg: Config, job: Job)
    requires JobOk(cfg, job)
    ensures OnePerKey(job.plan)
  {
  }

  lemma NothingPerformed(cfg: Config, start: Lake, lake: Lake, job: Job, k: nat)
    requires JobOk(cfg, job) && k < WriteCount(cfg)
    ensures Holds(cfg, start, lake, lake, job, k, 0)
  {
  }

  lemma OnceMore(cfg: Config, start: Lake, before: Lake, lake: Lake, job: Job, k: nat, n: nat)
    requires JobOk(cfg, job) && k < WriteCount(cfg) && Holds(cfg, start, before, lake, job, k, n)
    ensures Holds(cfg, start, before, Exec(cfg, lake, job, k), job, k, n + 1)
    ensures Reaches(cfg, start, before, Exec(cfg, lake, job, k), job, k)
  {
    hide Progress, After, Exec, JobOk, Advance;
    WriteCounts(cfg, start, lake, job, k);
  }

  class SinkContext {
    const cfg: Config
    const epoch: string
    var tables: Lake
    var watermarkMs: int
    var watermarkBatch: Option<nat>

    /** A fresh driver process over existing tables: nothing is cached. */
    constructor (cfg: Config, epoch: string, lake: Lake)
      ensures this.cfg == cfg && this.epoch == epoch && tables == lake && watermarkBatch == None
    {
      this.cfg := cfg;
      this.epoch := epoch;
      tables := lake;
      watermarkMs, watermarkBatch := 0, None;
    }

    /** The cached watermark belongs to a durable batch record of this epoch. */
    predicate CacheValid(batchId: nat)
      reads this
    {
      watermarkBatch.Some? ==>
        && watermarkBatch.value < batchId
        && Stamp(epoch, watermarkBatch.value) in tables.records
        && tables.records[Stamp(epoch, watermarkBatch.value)].watermark == watermarkMs
    }

    method WatermarkBefore(batchId: nat) returns (watermark: int)
      requires CacheValid(batchId)
      ensures watermark == LookupWatermark(tables.records, Stamp(epoch, batchId))
    {
      if watermarkBatch.Some? && watermarkBatch.value + 1 == batchId {
        PreviousRecordIsLatest(tables.records, Stamp(epoch, batchId));
        return watermarkMs;
      }
      watermark := LookupWatermark(tables.records, Stamp(epoch, batchId));
    }

    /** The statement itself: a silver MERGE, the bronze append, the DLQ MERGE or the batch record. */
    method Perform(job: Job, k: nat)
      requires OnePerKey(job.plan) && k < WriteCount(cfg)
      modifies this`tables
      ensures tables == Exec(cfg, old(tables), job, k)
    {
      hide Winners, MergeTable, Append, Upsert, RecordOf, Dlq.Merge, OnePerKey;
      if k < |cfg.tables| {
        tables := tables.(silver := MergeTable(tables.silver, Winners(job.plan), cfg.tables[k], job.stamp));
      } else if k == |cfg.tables| {
        tables := tables.(bronze := Append(tables.bronze, job.plan, ValidEvents(job.records), job.stamp));
      } else if k == |cfg.tables| + 1 {
        tables := tables.(dlq := Dlq.Merge(tables.dlq, Dlq.Sources(job.records, job.stamp.batch)));
      } else {
        tables := tables.(records := Upsert(tables.records, job.stamp, RecordOf(cfg, job)));
      }
    }

    /** The k-th write commits. Nobody has to know whether it did so before: a batch that started from `start` and
        has the writes before k durable now has k durable, too, and is still on its way to the crash-free result. */
    method ExecuteWrite(job: Job, k: nat, ghost start: Lake)
      requires JobOk(cfg, job) && k < WriteCount(cfg)
      modifies this`tables
      ensures Progress(cfg, start, After(cfg, start, job), old(tables), k) ==>
                Progress(cfg, start, After(cfg, start, job), tables, k) &&
                Progress(cfg, start, After(cfg, start, job), tables, k + 1)
      ensures k + 1 == WriteCount(cfg) ==> Recorded(cfg, tables, job)
      ensures tables == Exec(cfg, old(tables), job, k)
    {
      hide Progress, After, Exec;
      WriteCounts(cfg, start, tables, job, k);
      Perform(job, k);
    }

    /** One attempt at the k-th write, which may fail before or after it committed. */
    method Try(job: Job, k: nat, attempt: Attempt, ghost start: Lake, ghost before: Lake, ghost commits: nat)
      returns (ghost now: nat)
      requires JobOk(cfg, job) && k < WriteCount(cfg)
      requires Holds(cfg, start, before, tables, job, k, commits)
      modifies this`tables
      ensures now == commits + (if Committed(attempt) then 1 else 0)
      ensures Holds(cfg, start, before, tables, job, k, now)
      ensures Committed(attempt) ==> Reaches(cfg, start, before, tables, job, k)
    {
      hide Exec, JobOk, Holds, Reaches, Committed;
      now := commits;
      if Committed(attempt) {
        assert OnePerKey(job.plan) by { OkIsOnePerKey(cfg, job); }
        OnceMore(cfg, start, before, tables, job, k, commits);
        Perform(job, k);
        now := commits + 1;
      }
    }

    /** The k-th write with up to five attempts. `ok` is false when the exception propagates; the write may be durable
        even then, and may have been performed more than once. */
    method WithRetries(job: Job, k: nat, outcome: nat -> Attempt, ghost start: Lake)
      returns (ok: bool, retries: nat, ghost commits: nat)
      requires JobOk(cfg, job) && k < WriteCount(cfg)
      modifies this`tables
      ensures Holds(cfg, start, old(tables), tables, job, k, commits)
      ensures ok ==> Reaches(cfg, start, old(tables), tables, job, k)
      ensures Ends(outcome, ok, retries, commits)
    {
      hide JobOk, Holds, Reaches, Committed, Trying, Ends;
      ghost var before := tables;
      NothingTried(outcome);
      NothingPerformed(cfg, start, before, job, k);
      retries, commits, ok := 0, 0, false;
      var attempt := 1;
      while true
        invariant 1 <= attempt <= MAX_ATTEMPTS && !ok && retries == attempt - 1
        invariant Trying(outcome, attempt, commits)
        invariant Holds(cfg, start, before, tables, job, k, commits)
        decreases MAX_ATTEMPTS - attempt
      {
        var result := outcome(attempt);
        TryEnds(outcome, attempt, commits, result);
        commits := Try(job, k, result, start, before, commits);
        if result.Succeeded? {
          ok := true;
          return;
        }
        if attempt == MAX_ATTEMPTS || result.Fatal? {
          return;
        }
        retries, attempt := retries + 1, attempt + 1;
      }
    }

    /** foreachBatch entry point. `start` is the lake before the first attempt at this batch; earlier attempts may
        have left any part of the batch behind, and this one may be cut short by a failing write. */
    method ProcessBatch(batch: seq<Decoded>, batchId: nat, outcome: nat -> nat -> Attempt,
                        ghost h: History, ghost start: Lake) returns (ok: bool)
      requires Ready(h, cfg, start, Stamp(epoch, batchId), batch)
      requires CacheValid(batchId)
      requires batch == [] ==> Same(tables, start)
      requires batch != [] ==> OnePerKey(FirstJob(start, Stamp(epoch, batchId), batch).plan)
      requires batch != [] ==>
                 InFlight(start, After(cfg, start, FirstJob(start, Stamp(epoch, batchId), batch)), tables)
      modifies this
      ensures ok <==> batch == [] || forall k :: 0 <= k < WriteCount(cfg) ==> Succeeds(outcome(k))
      ensures ok ==> Same(tables, CleanBatch(h, cfg, start, Stamp(epoch, batchId), batch)) && CacheValid(batchId + 1)
      ensures ok && batch != [] ==> watermarkBatch == Some(batchId)
      ensures !ok || batch == [] ==> watermarkBatch == old(watermarkBatch) && watermarkMs == old(watermarkMs)
      ensures !ok ==>
                batch != [] &&
                InFlight(start, After(cfg, start, FirstJob(start, Stamp(epoch, batchId), batch)), tables)
    {
      hide Exec, After, Progress, InFlight, PlanOn, RecordOf, JobOk, LakeOk, StampsBefore, ExecTimes, Succeeds;
      ok := true;
      if batch == [] {
        return;
      }
      var stamp := Stamp(epoch, batchId);
      ghost var done := After(cfg, start, FirstJob(start, stamp, batch));
      PlanStable(h, cfg, start, stamp, batch, tables);
      FirstJobOk(h, cfg, start, stamp, batch);
      var watermark := WatermarkBefore(batchId);
      var job := StartJob(tables, stamp, batch, watermark);
      NothingWritten(cfg, start, done, tables);
      var k := 0;
      while k < WriteCount(cfg)
        invariant 0 <= k <= WriteCount(cfg)
        invariant Progress(cfg, start, done, tables, k)
        invariant watermarkBatch == old(watermarkBatch) && watermarkMs == old(watermarkMs)
        invariant k == WriteCount(cfg) ==> Recorded(cfg, tables, job)
        invariant forall j :: 0 <= j < k ==> Succeeds(outcome(j))
      {
        var written, retries, commits := WithRetries(job, k, outcome(k), start);
        ok := written;
        if !ok {
          ProgressIsInFlight(cfg, start, done, tables, k);
          return;
        }
        k := k + 1;
      }
      AllWritten(cfg, start, done, tables);
      watermarkMs, watermarkBatch := Advance(watermark, ValidEvents(batch), cfg.lateness), Some(batchId);
    }
  }

  /** What one committed execution of the k-th write achieves. */
  lemma WriteCounts(cfg: Config, start: Lake, lake: Lake, job: Job, k: nat)
    requires JobOk(cfg, job) && k < WriteCount(cfg)
    ensures var done, next := After(cfg, start, job), Exec(cfg, lake, job, k);
            && (Progress(cfg, start, done, lake, k) ==>
                  Progress(cfg, start, done, next, k) && Progress(cfg, start, done, next, k + 1))
            && (k + 1 == WriteCount(cfg) ==>
                  job.stamp in next.records &&
                  next.records[job.stamp].watermark == Advance(job.watermark, ValidEvents(job.records), cfg.lateness))
  {
    assert OnePerKey(job.plan);
    hide Progress, After, JobOk, Winners, OnePerKey;
    if Progress(cfg, start, After(cfg, start, job), lake, k) {
      RepeatKeeps(cfg, start, After(cfg, start, job), job, lake, k);
    }
  }
}
