/** The lakehouse invariant at every write boundary of a batch. */
module SinkSafety {
  import opened Basics
  import opened Events
  import opened SinkPlan
  import opened SinkBatch
  import opened SinkRecovery

  /** Silver only ever moves forward: a row, tombstones included, is replaced only by a strictly higher LSN. */
  ghost predicate Raised(s0: Silver, s1: Silver) {
    forall k :: k in s0 ==> k in s1 && (s1[k] == s0[k] || s1[k].sourceLsn > s0[k].sourceLsn)
  }

  ghost predicate WinnersFrom(h: History, winners: map<Key, ChangeEvent>) {
    forall k :: k in winners ==>
      winners[k].change.key == k && winners[k].id in h && h[winners[k].id] == winners[k].change
  }

  lemma WinnersAreFrom(h: History, valid: seq<ChangeEvent>, plan: Plan)
    requires From(h, valid) && OnePerKey(plan)
    requires forall id :: id in plan ==> plan[id].event in valid
    ensures WinnersFrom(h, Winners(plan))
  {
  }

  /** One guarded merge keeps a row what its event says, and only raises it. */
  lemma MergeRowOk(h: History, k: Key, row: Option<SilverRow>, e: ChangeEvent, stamp: Stamp)
    requires row.Some? ==> SilverRowOk(h, k, row.value)
    requires e.change.key == k && e.id in h && h[e.id] == e.change
    ensures SilverRowOk(h, k, MergeRow(row, e, stamp))
    ensures row.Some? ==> MergeRow(row, e, stamp) == row.value ||
                          MergeRow(row, e, stamp).sourceLsn > row.value.sourceLsn
  {
  }

  lemma MergeAllOk(h: History, silver: Silver, winners: map<Key, ChangeEvent>, stamp: Stamp)
    requires SilverOk(h, silver) && WinnersFrom(h, winners)
    ensures SilverOk(h, MergeAll(silver, winners, stamp)) && Raised(silver, MergeAll(silver, winners, stamp))
  {
    hide MergeAll, MergeRow, SilverRowOk;
    var s := MergeAll(silver, winners, stamp);
    forall k | k in s
      ensures SilverRowOk(h, k, s[k])
      ensures k in silver ==> s[k] == silver[k] || s[k].sourceLsn > silver[k].sourceLsn
    {
      assert Get(s, k) == Some(s[k]);
      if k in winners { MergeRowOk(h, k, Get(silver, k), winners[k], stamp); }
    }
    forall k | k in silver ensures k in s {
      assert Get(s, k).Some?;
    }
  }

  lemma BetweenOk(h: History, s0: Silver, s1: Silver, s: Silver)
    requires SilverOk(h, s0) && SilverOk(h, s1) && Raised(s0, s1) && Between(s0, s1, s)
    ensures SilverOk(h, s) && Raised(s0, s)
  {
    forall k | k in s ensures SilverRowOk(h, k, s[k]) {
      assert Get(s, k) == Some(s[k]);
    }
    forall k | k in s0 ensures k in s && (s[k] == s0[k] || s[k].sourceLsn > s0[k].sourceLsn) {
      assert Get(s, k) == Get(s0, k) || Get(s, k) == Get(s1, k);
    }
  }

  lemma DominatedRaised(bronze: Bronze, s0: Silver, s1: Silver)
    requires Dominated(bronze, s0) && Raised(s0, s1)
    ensures Dominated(bronze, s1)
  {
  }

  /** Pruning the bronze lookup to the batch's time range misses no copy of a batch event. */
  lemma LookupIsComplete(h: History, bronze: Bronze, valid: seq<ChangeEvent>, id: EventId)
    requires From(h, valid) && BronzeOk(h, bronze) && id in Ids(valid)
    ensures InLookup(bronze, id, MinTs(valid), MaxTs(valid)) <==> exists r :: r in bronze && r.event.id == id
  {
    if r :| r in bronze && r.event.id == id {
      assert r.event.change == h[id] == Kept(valid)[id].change;
    }
  }

  /** Appending keeps one row per event id. */
  lemma AppendOk(h: History, bronze: Bronze, plan: Plan, valid: seq<ChangeEvent>, stamp: Stamp)
    requires From(h, valid) && BronzeOk(h, bronze)
    requires plan.Keys == Ids(valid) && forall id :: id in plan ==> plan[id].event == Kept(valid)[id]
    ensures BronzeOk(h, Append(bronze, plan, valid, stamp))
  {
    var lo, hi := MinTs(valid), MaxTs(valid);
    var added := FreshRows(bronze, plan, lo, hi, stamp);
    forall r | r in added
      ensures r.event.id in plan && r.event == plan[r.event.id].event && h[r.event.id] == r.event.change
      ensures r == BronzeRow(plan[r.event.id].event, plan[r.event.id].outcome, plan[r.event.id].late, stamp)
      ensures forall q :: q in bronze ==> q.event.id != r.event.id
    {
      LookupIsComplete(h, bronze, valid, r.event.id);
    }
    assert forall r :: r in added ==> multiset(added)[r] == 1;
    var after := Append(bronze, plan, valid, stamp);
    forall r, q | Copies(after, r, q) ensures r == q {
      assert r in bronze || r in added;
      assert q in bronze || q in added;
      assert r in bronze && q in bronze ==> Copies(bronze, r, q);
    }
  }

  /** The merge of `winners` into `s0` leaves the key of `c` at an LSN no lower than c's. */
  ghost predicate Covered(s0: Silver, winners: map<Key, ChangeEvent>, c: Change) {
    (c.key in s0 && c.lsn <= s0[c.key].sourceLsn) || (c.key in winners && c.lsn <= winners[c.key].change.lsn)
  }

  lemma CoveredAfterMerge(s0: Silver, winners: map<Key, ChangeEvent>, stamp: Stamp, c: Change)
    requires Covered(s0, winners, c)
    ensures var s1 := MergeAll(s0, winners, stamp);
            c.key in s1 && c.lsn <= s1[c.key].sourceLsn
  {
    var s1 := MergeAll(s0, winners, stamp);
    assert Get(s1, c.key) ==
           if c.key in winners then Some(MergeRow(Get(s0, c.key), winners[c.key], stamp)) else Get(s0, c.key);
  }

  /** Every event that is not a prior duplicate is stale, or its key has a winner at least as new. */
  lemma PlannedIsCovered(s0: Silver, unique: map<EventId, ChangeEvent>, dups: set<EventId>, stamp: Stamp, plan: Plan,
                         id: EventId)
    requires DistinctRanks(unique, dups)
    requires forall k :: k in s0 ==> s0[k].stamp != stamp
    requires plan.Keys == unique.Keys && OnePerKey(plan)
    requires forall j :: j in plan ==> plan[j].event == unique[j] &&
                                       plan[j].outcome == Label(unique, dups, Baselines(s0, stamp), j)
    requires id in unique && id !in dups
    ensures Covered(s0, Winners(plan), unique[id].change)
  {
    var baselines := Baselines(s0, stamp);
    if IsStale(baselines, unique[id]) {
      var key := unique[id].change.key;
      assert Get(baselines, key) == if key in s0 then Some(s0[key].sourceLsn) else None;
    } else {
      var top := CandidateHasWinner(unique, dups, baselines, id);
      assert plan[top].outcome == Applied;
    }
  }

  lemma AllCovered(s0: Silver, unique: map<EventId, ChangeEvent>, dups: set<EventId>, stamp: Stamp, watermark: int,
                   plan: Plan)
    requires DistinctRanks(unique, dups)
    requires forall k :: k in s0 ==> s0[k].stamp != stamp
    requires plan == MakePlan(unique, dups, Baselines(s0, stamp), watermark) && OnePerKey(plan)
    ensures forall id :: id in plan && plan[id].outcome != Duplicate ==>
              Covered(s0, Winners(plan), plan[id].event.change)
  {
    forall id | id in plan && plan[id].outcome != Duplicate
      ensures Covered(s0, Winners(plan), plan[id].event.change)
    {
      PlannedIsCovered(s0, unique, dups, stamp, plan, id);
    }
  }

  lemma AppendCovered(s0: Silver, bronze: Bronze, plan: Plan, valid: seq<ChangeEvent>, winners: map<Key, ChangeEvent>,
                      stamp: Stamp)
    requires Dominated(bronze, s0) && Raised(s0, MergeAll(s0, winners, stamp))
    requires forall id :: id in plan && plan[id].outcome != Duplicate ==> Covered(s0, winners, plan[id].event.change)
    ensures Dominated(Append(bronze, plan, valid, stamp), MergeAll(s0, winners, stamp))
  {
    var s1 := MergeAll(s0, winners, stamp);
    forall r | r in FreshRows(bronze, plan, MinTs(valid), MaxTs(valid), stamp)
      ensures r.event.change.key in s1 && r.event.change.lsn <= s1[r.event.change.key].sourceLsn
    {
      CoveredAfterMerge(s0, winners, stamp, r.event.change);
    }
    DominatedRaised(bronze, s0, s1);
  }

  /** The lake after a whole batch. */
  lemma DoneOk(h: History, cfg: Config, start: Lake, stamp: Stamp, records: seq<Decoded>)
    requires Ready(h, cfg, start, stamp, records) && OnePerKey(FirstJob(start, stamp, records).plan)
    ensures var done := After(cfg, start, FirstJob(start, stamp, records));
            LakeOk(h, done) && Raised(start.silver, done.silver)
  {
    var job := FirstJob(start, stamp, records);
    var valid := ValidEvents(records);
    WinnersAreFrom(h, valid, job.plan);
    MergeAllOk(h, start.silver, Winners(job.plan), stamp);
    AppendOk(h, start.bronze, job.plan, valid, stamp);
    KeptIsFrom(h, valid);
    RanksFromLsns(h, Kept(valid), PriorDups(valid, start.bronze, stamp));
    AllCovered(start.silver, Kept(valid), PriorDups(valid, start.bronze, stamp), stamp, job.watermark, job.plan);
    AppendCovered(start.silver, start.bronze, job.plan, valid, Winners(job.plan), stamp);
  }

  /** Silver dominates bronze at every boundary between the writes of a batch, in any mixture of attempts. */
  lemma InFlightOk(h: History, start: Lake, done: Lake, lake: Lake)
    requires LakeOk(h, start) && LakeOk(h, done) && Raised(start.silver, done.silver)
    requires InFlight(start, done, lake)
    ensures LakeOk(h, lake) && Raised(start.silver, lake.silver)
  {
    BetweenOk(h, start.silver, done.silver, lake.silver);
    DominatedRaised(start.bronze, start.silver, lake.silver);
  }

  lemma SilverStampsAfter(s0: Silver, s: Silver, winners: map<Key, ChangeEvent>, stamp: Stamp)
    requires forall k :: k in s0 && s0[k].stamp.epoch == stamp.epoch ==> s0[k].stamp.batch < stamp.batch
    requires Between(s0, MergeAll(s0, winners, stamp), s)
    ensures forall k :: k in s && s[k].stamp.epoch == stamp.epoch ==> s[k].stamp.batch < stamp.batch + 1
    ensures forall k :: k in s ==> s[k].stamp == stamp || (k in s0 && s[k].stamp == s0[k].stamp)
  {
    forall k | k in s ensures s[k].stamp == stamp || (k in s0 && s[k].stamp == s0[k].stamp) {
      assert Get(s, k) == Get(s0, k) || Get(s, k) == Get(MergeAll(s0, winners, stamp), k);
    }
  }

  lemma RecordStampsAfter(start: Records, records: Records, stamp: Stamp, record: BatchRecord)
    requires Forget(records) == Forget(start) || Forget(records) == Forget(Upsert(start, stamp, record))
    ensures forall s :: s in records ==> s == stamp || s in start
  {
    forall s | s in records && s != stamp ensures s in start {
      assert Get(Forget(records), s).Some?;
      assert Get(Forget(Upsert(start, stamp, record)), s) == Get(Forget(start), s);
    }
  }

  lemma BronzeStampsAfter(bronze: Bronze, plan: Plan, valid: seq<ChangeEvent>, stamp: Stamp)
    ensures forall r :: r in Append(bronze, plan, valid, stamp) ==> r in bronze || r.stamp == stamp
  {
  }

  lemma StampsAfter(cfg: Config, start: Lake, job: Job, lake: Lake)
    requires OnePerKey(job.plan) && StampsBefore(start, job.stamp.epoch, job.stamp.batch)
    requires InFlight(start, After(cfg, start, job), lake)
    ensures StampsBefore(lake, job.stamp.epoch, job.stamp.batch + 1)
  {
    hide Winners, Append, RecordOf, Upsert, Forget, MergeAll;
    SilverStampsAfter(start.silver, lake.silver, Winners(job.plan), job.stamp);
    BronzeStampsAfter(start.bronze, job.plan, ValidEvents(job.records), job.stamp);
    RecordStampsAfter(start.records, lake.records, job.stamp, RecordOf(cfg, job));
  }

  lemma StampsDone(cfg: Config, start: Lake, job: Job)
    requires OnePerKey(job.plan) && StampsBefore(start, job.stamp.epoch, job.stamp.batch)
    ensures StampsBefore(After(cfg, start, job), job.stamp.epoch, job.stamp.batch + 1)
  {
    hide StampsBefore, After;
    var done := After(cfg, start, job);
    assert InFlight(start, done, done);
    StampsAfter(cfg, start, job, done);
  }
}
