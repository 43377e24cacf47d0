/** What a silver row says after each action of a run: which event wrote it, and whose values it holds. */
module SinkValues {
  import opened Basics
  import opened Events
  import opened SinkPlan
  import opened SinkBatch
  import opened SinkRecovery
  import opened SinkSafety
  import opened SinkRun
  import opened SinkInvariant
  import opened SinkConvergence

  /** A row as the change of its event leaves it: a live row has the after image, a tombstone the values of the row it
      replaced, or its own before image when there was none. */
  ghost predicate Rewritten(h: History, k: Key, was: Option<SilverRow>, row: SilverRow, stamp: Stamp) {
    && row.eventId in h && row.stamp == stamp
    && var c := h[row.eventId];
    && c.key == k && row.sourceLsn == c.lsn && (row.isDeleted <==> c.op == Delete)
    && (was.None? ==> row.prevSourceLsn.None? && row.values == c.image)
    && (was.Some? ==> was.value.sourceLsn < c.lsn && row.prevSourceLsn == Some(was.value.sourceLsn))
    && (was.Some? && c.op != Delete ==> row.values == c.image)
    && (was.Some? && c.op == Delete ==> row.values == was.value.values)
  }

  lemma MergeRewrites(h: History, k: Key, was: Option<SilverRow>, e: ChangeEvent, stamp: Stamp)
    requires e.change.key == k && e.id in h && h[e.id] == e.change
    ensures was == Some(MergeRow(was, e, stamp)) || Rewritten(h, k, was, MergeRow(was, e, stamp), stamp)
    ensures was.Some? && e.change.lsn <= was.value.sourceLsn ==> was == Some(MergeRow(was, e, stamp))
  {
  }

  lemma MergeTableRewrites(h: History, silver: Silver, winners: map<Key, ChangeEvent>, table: string, stamp: Stamp,
                           k: Key)
    requires WinnersFrom(h, winners)
    ensures var after := MergeTable(silver, winners, table, stamp);
            || Get(after, k) == Get(silver, k)
            || (k in after && Rewritten(h, k, Get(silver, k), after[k], stamp))
  {
    hide MergeRow, Rewritten;
    var after := MergeTable(silver, winners, table, stamp);
    assert Get(after, k) == if k in winners && k.table == table then Some(MergeRow(Get(silver, k), winners[k], stamp))
                            else Get(silver, k);
    if k in winners { MergeRewrites(h, k, Get(silver, k), winners[k], stamp); }
  }

  lemma RunningWinners(h: History, cfg: Config, s: State)
    requires Inv(h, cfg, s) && s.phase.Running?
    ensures OnePerKey(s.phase.job.plan) && WinnersFrom(h, Winners(s.phase.job.plan))
    ensures s.phase.job.stamp == StampOf(s)
  {
    var valid := ValidEvents(s.pending.value);
    WinnersAreFrom(h, valid, s.phase.job.plan);
  }

  /** An action leaves a silver row alone, or replaces it by the row of a newer event of its key. */
  lemma StepRewrites(h: History, cfg: Config, s: State, a: Action, k: Key)
    requires Inv(h, cfg, s) && Enabled(h, cfg, s, a)
    ensures var after := Next(cfg, s, a).lake.silver;
            || Get(after, k) == Get(s.lake.silver, k)
            || (k in after && Rewritten(h, k, Get(s.lake.silver, k), after[k], StampOf(s)))
  {
    hide Inv, Rewritten, MergeTable, Winners, OnePerKey, StartJob, Advance, Append, Upsert, RecordOf, WinnersFrom;
    if a.Write? || a.Ambiguous? {
      RunningWinners(h, cfg, s);
      var job, pc := s.phase.job, s.phase.pc;
      if pc < |cfg.tables| {
        MergeTableRewrites(h, s.lake.silver, Winners(job.plan), cfg.tables[pc], job.stamp, k);
      }
    }
  }

  /** In every reachable state. */
  lemma RunRewrites(h: History, cfg: Config, epoch: string, actions: seq<Action>, s: State, a: Action, k: Key)
    requires DistinctLsns(h) && IsRun(h, cfg, epoch, actions, s) && Enabled(h, cfg, s, a)
    ensures var after := Next(cfg, s, a).lake.silver;
            || Get(after, k) == Get(s.lake.silver, k)
            || (k in after && Rewritten(h, k, Get(s.lake.silver, k), after[k], StampOf(s)))
  {
    hide Inv, IsRun, Rewritten, Enabled, Next;
    RunKeeps(h, cfg, epoch, actions, s);
    StepRewrites(h, cfg, s, a, k);
  }

  // ------------------------------------------------------------------ over many actions

  /** The actions lead from one state to another, and the key is deleted after each of them. */
  ghost predicate StaysDeleted(h: History, cfg: Config, s: State, actions: seq<Action>, t: State, k: Key) {
    if actions == [] then t == s
    else
      var n := |actions| - 1;
      exists p :: StaysDeleted(h, cfg, s, actions[..n], p, k) && Enabled(h, cfg, p, actions[n]) &&
                  t == Next(cfg, p, actions[n]) && k in t.lake.silver && t.lake.silver[k].isDeleted
  }

  /** However many deletes, retries, crashes and wipes follow, a tombstone holds the values of the last live row. */
  lemma {:induction false} TombstoneKeepsValues(h: History, cfg: Config, s: State, actions: seq<Action>, t: State,
                                                k: Key)
    requires Inv(h, cfg, s) && k in s.lake.silver && StaysDeleted(h, cfg, s, actions, t, k)
    ensures Inv(h, cfg, t) && k in t.lake.silver && t.lake.silver[k].values == s.lake.silver[k].values
  {
    hide Inv, Next, Deliverable, OnePerKey;
    if actions != [] {
      var n := |actions| - 1;
      var p :| StaysDeleted(h, cfg, s, actions[..n], p, k) && Enabled(h, cfg, p, actions[n]) &&
               t == Next(cfg, p, actions[n]) && k in t.lake.silver && t.lake.silver[k].isDeleted;
      TombstoneKeepsValues(h, cfg, s, actions[..n], p, k);
      StepKeeps(h, cfg, p, actions[n]);
      StepRewrites(h, cfg, p, actions[n], k);
    }
  }

  /** The row holds the image of a change of its key no newer than itself. */
  ghost predicate Remembers(h: History, k: Key, row: SilverRow) {
    exists id :: id in h && h[id].key == k && h[id].lsn <= row.sourceLsn && row.values == h[id].image
  }

  ghost predicate AllRemember(h: History, silver: Silver) {
    forall k :: k in silver ==> Remembers(h, k, silver[k])
  }

  lemma RewrittenRemembers(h: History, k: Key, was: Option<SilverRow>, row: SilverRow, stamp: Stamp)
    requires Rewritten(h, k, was, row, stamp) && (was.Some? ==> Remembers(h, k, was.value))
    ensures Remembers(h, k, row)
  {
    if was.Some? && row.isDeleted {
      var id :| id in h && h[id].key == k && h[id].lsn <= was.value.sourceLsn && was.value.values == h[id].image;
    }
  }

  /** In every state of every run each silver row, tombstones included, holds the image of a change of its key. */
  lemma {:induction false} ValuesAreImages(h: History, cfg: Config, epoch: string, actions: seq<Action>, s: State)
    requires DistinctLsns(h) && IsRun(h, cfg, epoch, actions, s)
    ensures AllRemember(h, s.lake.silver)
  {
    hide Next, Deliverable, OnePerKey, Remembers, Rewritten;
    if actions != [] {
      var n := |actions| - 1;
      var p :| IsRun(h, cfg, epoch, actions[..n], p) && Enabled(h, cfg, p, actions[n]) && s == Next(cfg, p, actions[n]);
      ValuesAreImages(h, cfg, epoch, actions[..n], p);
      forall k | k in s.lake.silver ensures Remembers(h, k, s.lake.silver[k]) {
        RunRewrites(h, cfg, epoch, actions[..n], p, actions[n], k);
        if Get(s.lake.silver, k) != Get(p.lake.silver, k) {
          RewrittenRemembers(h, k, Get(p.lake.silver, k), s.lake.silver[k], StampOf(p));
        }
      }
    }
  }
}
