/** What a run converges to: the latest delivered change of every key, however delivery went. */
module SinkConvergence {
  import opened Basics
  import opened Events
  import opened SinkPlan
  import opened SinkBatch
  import opened SinkRecovery
  import opened SinkRun
  import opened SinkInvariant

  function BronzeIds(bronze: Bronze): set<EventId> {
    set r | r in bronze :: r.event.id
  }

  ghost predicate IdsWithin(lake: Lake, ids: set<EventId>) {
    (forall k :: k in lake.silver ==> lake.silver[k].eventId in ids) && BronzeIds(lake.bronze) <= ids
  }

  /** Silver and bronze hold delivered events only, and bronze holds every committed one. */
  ghost predicate Tracked(h: History, s: State) {
    && IdsWithin(s.lake, s.delivered) && s.delivered <= h.Keys
    && s.committed <= BronzeIds(s.lake.bronze)
    && (s.pending.Some? ==> Ids(ValidEvents(s.pending.value)) <= s.delivered)
  }

  lemma BronzeIdsGrow(a: Bronze, b: Bronze)
    requires a <= b
    ensures BronzeIds(a) <= BronzeIds(b)
  {
    forall id | id in BronzeIds(a) ensures id in BronzeIds(b) {
      var r :| r in a && r.event.id == id;
      assert r in b;
    }
  }

  lemma MergeTableIds(lake: Lake, winners: map<Key, ChangeEvent>, table: string, stamp: Stamp, ids: set<EventId>)
    requires IdsWithin(lake, ids) && forall k :: k in winners ==> winners[k].id in ids
    ensures IdsWithin(lake.(silver := MergeTable(lake.silver, winners, table, stamp)), ids)
  {
    MergeTableRows(lake.silver, winners, table, stamp);
  }

  lemma WinnerIds(plan: Plan)
    requires OnePerKey(plan) && forall id :: id in plan ==> plan[id].event.id == id
    ensures forall k :: k in Winners(plan) ==> Winners(plan)[k].id in plan.Keys
  {
  }

  lemma AppendIds(lake: Lake, plan: Plan, valid: seq<ChangeEvent>, stamp: Stamp, ids: set<EventId>)
    requires IdsWithin(lake, ids) && plan.Keys <= ids
    requires forall id :: id in plan ==> plan[id].event.id == id
    ensures IdsWithin(lake.(bronze := Append(lake.bronze, plan, valid, stamp)), ids)
  {
    AppendRows(lake.bronze, plan, valid, stamp);
  }

  lemma ExecIds(cfg: Config, lake: Lake, job: Job, k: nat, ids: set<EventId>)
    requires OnePerKey(job.plan) && k < WriteCount(cfg)
    requires forall id :: id in job.plan ==> job.plan[id].event.id == id
    requires IdsWithin(lake, ids) && job.plan.Keys <= ids
    ensures IdsWithin(Exec(cfg, lake, job, k), ids)
    ensures BronzeIds(lake.bronze) <= BronzeIds(Exec(cfg, lake, job, k).bronze)
  {
    if k < |cfg.tables| {
      WinnerIds(job.plan);
      MergeTableIds(lake, Winners(job.plan), cfg.tables[k], job.stamp, ids);
    } else if k == |cfg.tables| {
      AppendIds(lake, job.plan, ValidEvents(job.records), job.stamp, ids);
      AppendRows(lake.bronze, job.plan, ValidEvents(job.records), job.stamp);
      BronzeIdsGrow(lake.bronze, Append(lake.bronze, job.plan, ValidEvents(job.records), job.stamp));
    }
  }

  lemma PriorDupInBronze(valid: seq<ChangeEvent>, bronze: Bronze, stamp: Stamp, id: EventId)
    requires id in PriorDups(valid, bronze, stamp)
    ensures id in BronzeIds(bronze)
  {
  }

  /** A finished batch has every one of its events in bronze. */
  lemma BatchIsLogged(bronze: Bronze, plan: Plan, valid: seq<ChangeEvent>, stamp: Stamp, baselines: map<Key, int>,
                      watermark: int)
    requires plan == MakePlan(Kept(valid), PriorDups(valid, bronze, stamp), baselines, watermark)
    ensures Ids(valid) <= BronzeIds(Append(bronze, plan, valid, stamp))
  {
    hide Append, PriorDups, Outranked, IsStale;
    var after := Append(bronze, plan, valid, stamp);
    AppendRows(bronze, plan, valid, stamp);
    BronzeIdsGrow(bronze, after);
    forall id | id in Ids(valid) ensures id in BronzeIds(after) {
      if plan[id].outcome == Duplicate {
        PriorDupInBronze(valid, bronze, stamp, id);
      } else {
        var r :| r in after && r.event.id == id;
      }
    }
  }

  lemma CommitIsLogged(h: History, cfg: Config, s: State)
    requires Inv(h, cfg, s) && s.phase.Finished? && s.pending.Some?
    ensures Ids(ValidEvents(s.pending.value)) <= BronzeIds(s.lake.bronze)
  {
    var start := CleanRun(h, cfg, s.base, s.epoch, s.log);
    var records := s.pending.value;
    if records != [] {
      var job := FirstJob(start, StampOf(s), records);
      BatchIsLogged(start.bronze, job.plan, ValidEvents(records), job.stamp, Baselines(start.silver, job.stamp),
                    job.watermark);
    }
  }

  lemma DeliverableInHistory(h: History, cfg: Config, records: seq<Decoded>)
    requires Deliverable(h, cfg, records)
    ensures Ids(ValidEvents(records)) <= h.Keys
  {
  }

  lemma StepTracks(h: History, cfg: Config, s: State, a: Action)
    requires Inv(h, cfg, s) && Enabled(h, cfg, s, a) && Tracked(h, s)
    ensures Tracked(h, Next(cfg, s, a))
  {
    match a
    case Offer(records) => DeliverableInHistory(h, cfg, records);
    case Write =>
      WriteTracks(h, cfg, s, a);
    case Ambiguous =>
      WriteTracks(h, cfg, s, a);
    case Commit => CommitIsLogged(h, cfg, s);
    case _ =>
  }

  lemma RunningJob(h: History, cfg: Config, s: State)
    requires Inv(h, cfg, s) && s.phase.Running?
    ensures s.pending.Some? && JobOk(cfg, s.phase.job) && s.phase.job.plan.Keys == Ids(ValidEvents(s.pending.value))
  {
  }

  lemma WriteTracks(h: History, cfg: Config, s: State, a: Action)
    requires Inv(h, cfg, s) && Enabled(h, cfg, s, a) && Tracked(h, s) && (a.Write? || a.Ambiguous?)
    ensures Tracked(h, Next(cfg, s, a))
  {
    hide Inv, Exec, BronzeIds, Advance;
    RunningJob(h, cfg, s);
    ExecIds(cfg, s.lake, s.phase.job, s.phase.pc, s.delivered);
  }

  lemma {:induction false} RunTracks(h: History, cfg: Config, epoch: string, actions: seq<Action>, s: State)
    requires DistinctLsns(h) && IsRun(h, cfg, epoch, actions, s)
    ensures Tracked(h, s)
  {
    if actions != [] {
      var n := |actions| - 1;
      var p :| IsRun(h, cfg, epoch, actions[..n], p) && Enabled(h, cfg, p, actions[n]) && s == Next(cfg, p, actions[n]);
      RunKeeps(h, cfg, epoch, actions[..n], p);
      RunTracks(h, cfg, epoch, actions[..n], p);
      StepTracks(h, cfg, p, actions[n]);
    }
  }

  /** The event ids a run was offered. */
  function OfferedIds(actions: seq<Action>): set<EventId> {
    if actions == [] then {}
    else
      var a := actions[|actions| - 1];
      OfferedIds(actions[..|actions| - 1]) + if a.Offer? then Ids(ValidEvents(a.records)) else {}
  }

  ghost predicate LogCommitted(s: State) {
    forall i :: 0 <= i < |s.log| ==> Ids(ValidEvents(s.log[i])) <= s.committed
  }

  lemma StepHistory(h: History, cfg: Config, s: State, a: Action)
    requires Enabled(h, cfg, s, a)
    ensures var next := Next(cfg, s, a);
            && next.delivered == s.delivered + (if a.Offer? then Ids(ValidEvents(a.records)) else {})
            && s.committed <= next.committed
            && (LogCommitted(s) ==> LogCommitted(next))
  {
    hide Deliverable, OnePerKey, StartJob, Exec, Advance, Ids, ValidEvents;
    NoBatchesHaveNoIds(s.batchId);
  }

  lemma NoBatchesHaveNoIds(n: nat)
    ensures forall i :: 0 <= i < n ==> Ids(ValidEvents(NoBatches(n)[i])) == {}
  {
  }

  /** What `delivered` and `committed` mean: the ids of all batches offered, and among them at least those of every
      batch the epoch committed; no action takes an id out again. */
  lemma {:induction false} HistoryOfRun(h: History, cfg: Config, epoch: string, actions: seq<Action>, s: State)
    requires IsRun(h, cfg, epoch, actions, s)
    ensures s.delivered == OfferedIds(actions) && LogCommitted(s)
    ensures forall a :: Enabled(h, cfg, s, a) ==> s.committed <= Next(cfg, s, a).committed
  {
    hide Next, LogCommitted, Deliverable, OnePerKey;
    if actions == [] {
      assert LogCommitted(s) by { NothingCommitted(s); }
    } else {
      var n := |actions| - 1;
      var p :| IsRun(h, cfg, epoch, actions[..n], p) && Enabled(h, cfg, p, actions[n]) && s == Next(cfg, p, actions[n]);
      HistoryOfRun(h, cfg, epoch, actions[..n], p);
      StepHistory(h, cfg, p, actions[n]);
    }
    forall a | Enabled(h, cfg, s, a) ensures s.committed <= Next(cfg, s, a).committed {
      StepHistory(h, cfg, s, a);
    }
  }

  lemma NothingCommitted(s: State)
    requires s.log == []
    ensures LogCommitted(s)
  {
  }

  // -------------------------------------------------------------------- convergence

  /** `id` names the change of key `k` with the highest LSN among `ids`. */
  ghost predicate IsLatest(h: History, ids: set<EventId>, k: Key, id: EventId) {
    && id in ids && id in h && h[id].key == k
    && forall j :: j in ids && j in h && h[j].key == k ==> h[j].lsn <= h[id].lsn
  }

  /** The silver layer is, key by key, the latest of the delivered changes. */
  ghost predicate ReflectsLatest(h: History, ids: set<EventId>, silver: Silver) {
    && (forall k :: k in silver ==>
          IsLatest(h, ids, k, silver[k].eventId) && SilverRowOk(h, k, silver[k]))
    && (forall j :: j in ids && j in h ==> h[j].key in silver)
  }

  /** Once every delivered event is in a committed batch, bronze holds exactly the delivered events and silver
      reflects the latest of each key, whatever order, duplication, batching, crashes and wipes came before. */
  lemma ConvergesToLatest(h: History, cfg: Config, epoch: string, actions: seq<Action>, s: State)
    requires DistinctLsns(h) && IsRun(h, cfg, epoch, actions, s) && s.committed == s.delivered
    ensures BronzeIds(s.lake.bronze) == s.delivered && BronzeOk(h, s.lake.bronze)
    ensures ReflectsLatest(h, s.delivered, s.lake.silver)
  {
    RunTracks(h, cfg, epoch, actions, s);
    SilverDominatesBronze(h, cfg, epoch, actions, s);
    var silver, bronze := s.lake.silver, s.lake.bronze;
    forall j | j in s.delivered
      ensures h[j].key in silver && h[j].lsn <= silver[h[j].key].sourceLsn
    {
      var r :| r in bronze && r.event.id == j;
    }
  }

  lemma LatestIsUnique(h: History, ids: set<EventId>, k: Key, i: EventId, j: EventId)
    requires DistinctLsns(h) && IsLatest(h, ids, k, i) && IsLatest(h, ids, k, j)
    ensures i == j
  {
    assert i != j ==> SameRow(h, i, j);
  }

  lemma SameLatest(h: History, ids: set<EventId>, a: Silver, b: Silver, k: Key)
    requires DistinctLsns(h) && ids <= h.Keys && ReflectsLatest(h, ids, a) && ReflectsLatest(h, ids, b) && k in a
    ensures k in b && a[k].eventId == b[k].eventId
  {
    assert h[a[k].eventId].key in b;
    LatestIsUnique(h, ids, k, a[k].eventId, b[k].eventId);
  }

  /** Two schedules of the same events agree on bronze ids and, per key, on LSN, event, deletion and live values. */
  lemma Confluence(h: History, cfg1: Config, epoch1: string, actions1: seq<Action>, s1: State,
                   cfg2: Config, epoch2: string, actions2: seq<Action>, s2: State)
    requires DistinctLsns(h) && IsRun(h, cfg1, epoch1, actions1, s1) && IsRun(h, cfg2, epoch2, actions2, s2)
    requires s1.committed == s1.delivered == s2.delivered == s2.committed
    ensures BronzeIds(s1.lake.bronze) == BronzeIds(s2.lake.bronze)
    ensures s1.lake.silver.Keys == s2.lake.silver.Keys
    ensures forall k :: k in s1.lake.silver ==>
              var a, b := s1.lake.silver[k], s2.lake.silver[k];
              a.sourceLsn == b.sourceLsn && a.eventId == b.eventId && a.isDeleted == b.isDeleted &&
              (!a.isDeleted ==> a.values == b.values)
  {
    ConvergesToLatest(h, cfg1, epoch1, actions1, s1);
    ConvergesToLatest(h, cfg2, epoch2, actions2, s2);
    RunTracks(h, cfg1, epoch1, actions1, s1);
    forall k | k in s1.lake.silver
      ensures k in s2.lake.silver && s1.lake.silver[k].eventId == s2.lake.silver[k].eventId
    {
      SameLatest(h, s1.delivered, s1.lake.silver, s2.lake.silver, k);
    }
    forall k | k in s2.lake.silver ensures k in s1.lake.silver {
      SameLatest(h, s1.delivered, s2.lake.silver, s1.lake.silver, k);
    }
  }
}
