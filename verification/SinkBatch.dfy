/** One micro-batch as an ordered list of idempotent writes, and the lakehouse invariant they keep. */
module SinkBatch {
  import opened Basics
  import opened Events
  import opened SinkPlan
  import Dlq

  datatype BatchRecord = BatchRecord(attempts: nat, inputRows: nat, validRows: nat, dlqRows: nat, tombstones: nat,
                                     duplicates: int, applied: nat, superseded: nat, stale: nat, lateRows: nat,
                                     watermark: int, maxTs: Option<int>)

  type Records = map<Stamp, BatchRecord>

  /** The durable tables. */
  datatype Lake = Lake(silver: Silver, bronze: Bronze, dlq: map<DlqId, Dlq.Row>, records: Records)

  const EmptyLake := Lake(map[], multiset{}, map[], map[])

  /** Source tables with a contract, in the order their silver tables are merged, and the allowed lateness. */
  datatype Config = Config(tables: seq<string>, lateness: int)

  // ------------------------------------------------------------------- watermark

  function EarlierBatches(records: Records, stamp: Stamp): set<nat> {
    set s | s in records && s.epoch == stamp.epoch && s.batch < stamp.batch :: s.batch
  }

  /** The watermark of the latest earlier batch record of the epoch, 0 without one. */
  function LookupWatermark(records: Records, stamp: Stamp): int {
    var earlier := EarlierBatches(records, stamp);
    if exists b :: b in earlier && IsMax(earlier, b) then
      var b :| b in earlier && IsMax(earlier, b);
      records[Stamp(stamp.epoch, b)].watermark
    else 0
  }

  /** The sink advances the watermark over every valid row of the batch, duplicates included. */
  function Advance(watermark: int, valid: seq<ChangeEvent>, lateness: int): int {
    if valid == [] then watermark else Max(watermark, MaxTs(valid) - lateness)
  }

  // ---------------------------------------------------------------- batch record

  function CountOf(plan: Plan, outcome: Outcome): nat {
    |set id | id in plan && plan[id].outcome == outcome|
  }

  function LateRows(plan: Plan): nat {
    |set id | id in plan && plan[id].outcome != Duplicate && plan[id].late|
  }

  function CountRejected(records: seq<Decoded>): nat {
    if records == [] then 0
    else CountRejected(records[..|records| - 1]) + if records[|records| - 1].payload.Rejected? then 1 else 0
  }

  function CountTombstones(records: seq<Decoded>): nat {
    if records == [] then 0
    else CountTombstones(records[..|records| - 1]) + if records[|records| - 1].payload.Tombstone? then 1 else 0
  }

  /** A running attempt at a batch: the decoded records, the persisted plan and the watermark it read. */
  datatype Job = Job(stamp: Stamp, records: seq<Decoded>, plan: Plan, watermark: int)

  function RecordOf(cfg: Config, job: Job): BatchRecord {
    var valid := ValidEvents(job.records);
    BatchRecord(1, |job.records|, |valid|, CountRejected(job.records), CountTombstones(job.records),
                |valid| - |Ids(valid)| + CountOf(job.plan, Duplicate),
                CountOf(job.plan, Applied), CountOf(job.plan, Superseded), CountOf(job.plan, Stale), LateRows(job.plan),
                Advance(job.watermark, valid, cfg.lateness),
                if valid == [] then None else Some(MaxTs(valid)))
  }

  /** Upsert keyed by (epoch, batch id): a re-execution adds one to `attempts` and rewrites the rest. */
  function Upsert(records: Records, stamp: Stamp, record: BatchRecord): Records {
    records[stamp := if stamp in records then record.(attempts := records[stamp].attempts + 1) else record]
  }

  /** The records with the attempt counters erased. */
  function Forget(records: Records): (r: Records)
    ensures forall s :: Get(r, s) == if s in records then Some(records[s].(attempts := 0)) else None
  {
    map s | s in records :: records[s].(attempts := 0)
  }

  // ---------------------------------------------------------------------- writes

  function StartJob(lake: Lake, stamp: Stamp, records: seq<Decoded>, watermark: int): Job {
    Job(stamp, records, PlanOn(ValidEvents(records), lake.silver, lake.bronze, stamp, watermark), watermark)
  }

  /** Silver merges table by table, then bronze, then the DLQ, then the batch record. */
  function WriteCount(cfg: Config): nat {
    |cfg.tables| + 3
  }

  /** The effect of the k-th write of a job. */
  function Exec(cfg: Config, lake: Lake, job: Job, k: nat): Lake
    requires OnePerKey(job.plan) && k < WriteCount(cfg)
  {
    if k < |cfg.tables| then
      lake.(silver := MergeTable(lake.silver, Winners(job.plan), cfg.tables[k], job.stamp))
    else if k == |cfg.tables| then
      lake.(bronze := Append(lake.bronze, job.plan, ValidEvents(job.records), job.stamp))
    else if k == |cfg.tables| + 1 then
      lake.(dlq := Dlq.Merge(lake.dlq, Dlq.Sources(job.records, job.stamp.batch)))
    else
      lake.(records := Upsert(lake.records, job.stamp, RecordOf(cfg, job)))
  }

  /** All writes of a job, each exactly once. */
  function After(cfg: Config, lake: Lake, job: Job): Lake
    requires OnePerKey(job.plan)
  {
    Lake(MergeAll(lake.silver, Winners(job.plan), job.stamp),
         Append(lake.bronze, job.plan, ValidEvents(job.records), job.stamp),
         Dlq.Merge(lake.dlq, Dlq.Sources(job.records, job.stamp.batch)),
         Upsert(lake.records, job.stamp, RecordOf(cfg, job)))
  }

  // ------------------------------------------------------------ lakehouse invariant

  /** A silver row is exactly what the change named by its event id makes of its key. */
  ghost predicate SilverRowOk(h: History, k: Key, row: SilverRow) {
    && row.eventId in h && h[row.eventId].key == k
    && h[row.eventId].lsn == row.sourceLsn
    && row.isDeleted == (h[row.eventId].op == Delete)
    && (!row.isDeleted ==> row.values == h[row.eventId].image)
    && (row.prevSourceLsn.Some? ==> row.prevSourceLsn.value < row.sourceLsn)
  }

  ghost predicate SilverOk(h: History, silver: Silver) {
    forall k :: k in silver ==> SilverRowOk(h, k, silver[k])
  }

  predicate Copies(bronze: Bronze, r: BronzeRow, q: BronzeRow) {
    r in bronze && q in bronze && r.event.id == q.event.id
  }

  /** One bronze row per event id, each a true copy of its change. */
  ghost predicate BronzeOk(h: History, bronze: Bronze) {
    && (forall r :: r in bronze ==> bronze[r] == 1 && r.event.id in h && h[r.event.id] == r.event.change)
    && (forall r, q {:trigger Copies(bronze, r, q)} :: Copies(bronze, r, q) ==> r == q)
  }

  /** No bronze event is newer than the silver row of its key. */
  ghost predicate Dominated(bronze: Bronze, silver: Silver) {
    forall r :: r in bronze ==>
      r.event.change.key in silver && r.event.change.lsn <= silver[r.event.change.key].sourceLsn
  }

  ghost predicate LakeOk(h: History, lake: Lake) {
    SilverOk(h, lake.silver) && BronzeOk(h, lake.bronze) && Dominated(lake.bronze, lake.silver)
  }

  /** Everything stamped with this epoch comes from a batch before `next`. */
  ghost predicate StampsBefore(lake: Lake, epoch: string, next: nat) {
    && (forall k :: k in lake.silver && lake.silver[k].stamp.epoch == epoch ==> lake.silver[k].stamp.batch < next)
    && (forall r :: r in lake.bronze && r.stamp.epoch == epoch ==> r.stamp.batch < next)
    && (forall s :: s in lake.records && s.epoch == epoch ==> s.batch < next)
  }

  ghost predicate Deliverable(h: History, cfg: Config, records: seq<Decoded>) {
    From(h, ValidEvents(records)) && InTables(cfg.tables, ValidEvents(records))
  }

  /** A lake at rest, about to receive the batch with this stamp for the first time. */
  ghost predicate Ready(h: History, cfg: Config, lake: Lake, stamp: Stamp, records: seq<Decoded>) {
    DistinctLsns(h) && Deliverable(h, cfg, records) && LakeOk(h, lake) && StampsBefore(lake, stamp.epoch, stamp.batch)
  }

  // ----------------------------------------------------- single writes, done again

  lemma BaselineStable(row: Option<SilverRow>, e: ChangeEvent, stamp: Stamp)
    requires row.Some? ==> row.value.stamp != stamp
    ensures Baseline(MergeRow(row, e, stamp), stamp) == if row.Some? then Baseline(row.value, stamp) else None
  {
  }

  /** prevSourceLsn restores the baseline of every key the batch already merged; one level is enough. */
  lemma BaselinesStable(s0: Silver, s1: Silver, s: Silver, winners: map<Key, ChangeEvent>, stamp: Stamp)
    requires forall k :: k in s0 ==> s0[k].stamp != stamp
    requires s1 == MergeAll(s0, winners, stamp)
    requires forall k :: Get(s, k) == Get(s0, k) || Get(s, k) == Get(s1, k)
    ensures Baselines(s, stamp) == Baselines(s0, stamp)
  {
    hide MergeAll, MergeRow, Baseline, Baselines;
    forall k ensures Get(Baselines(s, stamp), k) == Get(Baselines(s0, stamp), k) {
      assert Get(s, k) == Get(s0, k) || Get(s, k) == Get(s1, k);
      assert Get(s1, k) == if k in winners then Some(MergeRow(Get(s0, k), winners[k], stamp)) else Get(s0, k);
      if k in winners { BaselineStable(Get(s0, k), winners[k], stamp); }
    }
    MapsEqualByGet(Baselines(s, stamp), Baselines(s0, stamp));
  }

  /** Rows appended by the batch itself never make its events prior duplicates. */
  lemma DupsStable(bronze: Bronze, plan: Plan, valid: seq<ChangeEvent>, stamp: Stamp)
    ensures PriorDups(valid, Append(bronze, plan, valid, stamp), stamp) == PriorDups(valid, bronze, stamp)
  {
    var lo, hi := MinTs(valid), MaxTs(valid);
    var after := Append(bronze, plan, valid, stamp);
    forall r ensures r in after && r.stamp != stamp <==> r in bronze && r.stamp != stamp {
      assert r in FreshRows(bronze, plan, lo, hi, stamp) ==> r.stamp == stamp;
    }
  }

  lemma AppendAgain(bronze: Bronze, plan: Plan, valid: seq<ChangeEvent>, stamp: Stamp)
    requires forall id :: id in plan ==> plan[id].event in valid && plan[id].event.id == id
    ensures Append(Append(bronze, plan, valid, stamp), plan, valid, stamp) == Append(bronze, plan, valid, stamp)
  {
    var lo, hi := MinTs(valid), MaxTs(valid);
    var once := Append(bronze, plan, valid, stamp);
    forall id | id in plan && plan[id].outcome != Duplicate
      ensures InLookup(once, id, lo, hi)
    {
      if InLookup(bronze, id, lo, hi) {
        var r :| r in bronze && r.event.id == id && lo <= r.event.change.tsMs <= hi;
        assert r in once;
      } else {
        var r := BronzeRow(plan[id].event, plan[id].outcome, plan[id].late, stamp);
        assert r in FreshRows(bronze, plan, lo, hi, stamp);
        assert r in once;
      }
    }
    assert FreshRows(once, plan, lo, hi, stamp) == {};
  }

  lemma ForgetUpsertAgain(records: Records, stamp: Stamp, record: BatchRecord)
    ensures Forget(Upsert(Upsert(records, stamp, record), stamp, record)) == Forget(Upsert(records, stamp, record))
  {
  }

  lemma ForgetUpsert(a: Records, b: Records, stamp: Stamp, record: BatchRecord)
    requires Forget(a) == Forget(b)
    ensures Forget(Upsert(a, stamp, record)) == Forget(Upsert(b, stamp, record))
  {
    forall s ensures Get(Forget(Upsert(a, stamp, record)), s) == Get(Forget(Upsert(b, stamp, record)), s) {
      assert Get(Forget(a), s) == Get(Forget(b), s);
    }
    MapsEqualByGet(Forget(Upsert(a, stamp, record)), Forget(Upsert(b, stamp, record)));
  }

  /** Attempt counters and the batch's own record do not influence the watermark a batch reads. */
  lemma WatermarkStable(a: Records, b: Records, stamp: Stamp)
    requires forall s :: s != stamp ==> Get(Forget(a), s) == Get(Forget(b), s)
    ensures LookupWatermark(a, stamp) == LookupWatermark(b, stamp)
  {
    forall s | s != stamp ensures s in a <==> s in b {
      assert Get(Forget(a), s) == Get(Forget(b), s);
    }
    var ea, eb := EarlierBatches(a, stamp), EarlierBatches(b, stamp);
    assert ea == eb;
    if m :| m in ea && IsMax(ea, m) {
      assert Get(Forget(a), Stamp(stamp.epoch, m)) == Get(Forget(b), Stamp(stamp.epoch, m));
    }
  }
}
