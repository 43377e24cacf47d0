/** The sink's declarative plan against the loop-based reference model. */
module SinkAgreement {
  import opened Basics
  import opened Events
  import opened SinkPlan
  import opened SinkBatch
  import opened SinkSafety
  import opened SinkConvergence
  import Semantics

  /** The model knows one stream of batch ids; rows of an earlier epoch count as written before every batch. */
  function BatchOf(stamp: Stamp, epoch: string): int {
    if stamp.epoch == epoch then stamp.batch else -1
  }

  function ModelRow(row: SilverRow, epoch: string): Semantics.Row {
    Semantics.Row(row.values, row.isDeleted, row.sourceLsn, row.prevSourceLsn, row.eventId, BatchOf(row.stamp, epoch))
  }

  function ModelSilver(silver: Silver, epoch: string): (m: map<Key, Semantics.Row>)
    ensures forall k :: Get(m, k) == if k in silver then Some(ModelRow(silver[k], epoch)) else None
  {
    map k | k in silver :: ModelRow(silver[k], epoch)
  }

  /** event_id -> batch_id of bronze, as the model takes it. */
  ghost function ModelBronze(bronze: Bronze, epoch: string): (m: map<EventId, int>)
    ensures m.Keys == BronzeIds(bronze)
    ensures forall id :: id in m ==> exists r :: r in bronze && r.event.id == id && m[id] == BatchOf(r.stamp, epoch)
  {
    map id | id in BronzeIds(bronze) :: var r :| r in bronze && r.event.id == id; BatchOf(r.stamp, epoch)
  }

  /** A lake in the middle of, or before, the batch `stamp`. */
  ghost predicate Current(h: History, lake: Lake, stamp: Stamp) {
    && BronzeOk(h, lake.bronze)
    && (forall r :: r in lake.bronze && r.stamp.epoch == stamp.epoch ==> r.stamp.batch <= stamp.batch)
  }

  /** The pruned lookup with the own-attempt test finds exactly the model's prior duplicates. */
  lemma PriorAgrees(h: History, lake: Lake, valid: seq<ChangeEvent>, stamp: Stamp, id: EventId)
    requires Current(h, lake, stamp) && From(h, valid) && id in Ids(valid)
    ensures id in PriorDups(valid, lake.bronze, stamp) <==>
            Semantics.IsPrior(ModelBronze(lake.bronze, stamp.epoch), stamp.batch, id)
  {
    var m := ModelBronze(lake.bronze, stamp.epoch);
    forall r | r in lake.bronze && r.event.id == id
      ensures MinTs(valid) <= r.event.change.tsMs <= MaxTs(valid) && m[id] == BatchOf(r.stamp, stamp.epoch)
    {
      assert r.event.change == Kept(valid)[id].change;
      assert id in BronzeIds(lake.bronze);
      var q :| q in lake.bronze && q.event.id == id && m[id] == BatchOf(q.stamp, stamp.epoch);
      assert Copies(lake.bronze, r, q);
    }
  }

  lemma BaselineAgrees(silver: Silver, stamp: Stamp, k: Key)
    ensures Get(Baselines(silver, stamp), k) == Semantics.Baseline(ModelSilver(silver, stamp.epoch), k, stamp.batch)
  {
    assert Get(ModelSilver(silver, stamp.epoch), k) ==
           if k in silver then Some(ModelRow(silver[k], stamp.epoch)) else None;
  }

  /** The two vocabularies for the label of a candidate. */
  predicate SameOutcome(sink: Outcome, model: Semantics.Outcome) {
    match sink
    case Applied => model.Applied?
    case Superseded => model.Superseded?
    case Stale => model.Stale?
    case Duplicate => false
  }

  lemma RivalOutranks(unique: map<EventId, ChangeEvent>, dups: set<EventId>, id: EventId, j: EventId)
    requires DistinctRanks(unique, dups) && Rivals(unique, dups, id, j) && !Semantics.Beats(unique[id], unique[j])
    ensures Outranked(unique, dups, id)
  {
    assert Outranks(unique[j], unique[id]);
  }

  lemma SupersededAgrees(unique: map<EventId, ChangeEvent>, dups: set<EventId>, silver: map<Key, Semantics.Row>,
                         batchId: int, outcomes: map<EventId, Semantics.Outcome>, id: EventId)
    requires DistinctRanks(unique, dups) && id in unique && id !in dups
    requires Semantics.OutcomesOk(outcomes, map j | j in unique && j !in dups :: unique[j], silver, batchId)
    requires outcomes[id] == Semantics.Superseded
    ensures Outranked(unique, dups, id)
  {
    var candidates := map j | j in unique && j !in dups :: unique[j];
    var j :| j in candidates && j != id && Semantics.SameKey(candidates[j], candidates[id]) &&
             !Semantics.Beats(candidates[id], candidates[j]);
    assert Semantics.SameKey(unique[j], unique[id]);
    RivalOutranks(unique, dups, id, j);
  }

  lemma AppliedAgrees(unique: map<EventId, ChangeEvent>, dups: set<EventId>, silver: map<Key, Semantics.Row>,
                      batchId: int, outcomes: map<EventId, Semantics.Outcome>, id: EventId)
    requires id in unique && id !in dups
    requires Semantics.OutcomesOk(outcomes, map j | j in unique && j !in dups :: unique[j], silver, batchId)
    requires outcomes[id] == Semantics.Applied
    ensures !Outranked(unique, dups, id)
  {
    var candidates := map j | j in unique && j !in dups :: unique[j];
    forall j | j in unique && j !in dups ensures !Semantics.Beats(unique[j], unique[id]) {
      assert !Semantics.Beats(candidates[j], candidates[id]);
    }
  }

  /** The loop's labels satisfy the window's definition of a label. */
  lemma OutcomeAgrees(unique: map<EventId, ChangeEvent>, dups: set<EventId>, baselines: map<Key, int>,
                      silver: map<Key, Semantics.Row>, batchId: int, outcomes: map<EventId, Semantics.Outcome>,
                      id: EventId)
    requires DistinctRanks(unique, dups) && id in unique && id !in dups
    requires Get(baselines, unique[id].change.key) == Semantics.Baseline(silver, unique[id].change.key, batchId)
    requires Semantics.OutcomesOk(outcomes, map j | j in unique && j !in dups :: unique[j], silver, batchId)
    ensures SameOutcome(Label(unique, dups, baselines, id), outcomes[id])
  {
    assert IsStale(baselines, unique[id]) <==> Semantics.IsStale(silver, batchId, unique[id]);
    assert outcomes[id] == Semantics.Stale <==> Semantics.IsStale(silver, batchId, unique[id]);
    if outcomes[id] == Semantics.Superseded {
      SupersededAgrees(unique, dups, silver, batchId, outcomes, id);
    } else if outcomes[id] == Semantics.Applied {
      AppliedAgrees(unique, dups, silver, batchId, outcomes, id);
    }
  }

  /** The model's candidates are the sink's rows without a prior duplicate flag. */
  lemma CandidatesAgree(h: History, lake: Lake, valid: seq<ChangeEvent>, stamp: Stamp)
    requires From(h, valid) && Current(h, lake, stamp)
    ensures Semantics.Candidates(Kept(valid), ModelBronze(lake.bronze, stamp.epoch), stamp.batch) ==
            map j | j in Kept(valid) && j !in PriorDups(valid, lake.bronze, stamp) :: Kept(valid)[j]
  {
    forall id | id in Ids(valid)
      ensures id in PriorDups(valid, lake.bronze, stamp) <==>
              Semantics.IsPrior(ModelBronze(lake.bronze, stamp.epoch), stamp.batch, id)
    {
      PriorAgrees(h, lake, valid, stamp, id);
    }
  }

  /** The sink's plan and the model's plan of one batch say the same of every event. */
  ghost predicate SamePlan(plan: Plan, model: Semantics.BatchPlan) {
    && (forall id :: id in plan ==> (plan[id].outcome == Duplicate <==> id in model.priorDuplicates))
    && (forall id :: id in plan && plan[id].outcome != Duplicate ==>
          id in model.outcomes && SameOutcome(plan[id].outcome, model.outcomes[id]) &&
          (plan[id].late <==> id in model.late))
  }

  lemma SamePlanFrom(unique: map<EventId, ChangeEvent>, dups: set<EventId>, baselines: map<Key, int>, watermark: int,
                     model: Semantics.BatchPlan)
    requires model.priorDuplicates == dups && model.outcomes.Keys == unique.Keys - dups
    requires model.late == set id | id in unique && id !in dups && unique[id].change.tsMs < watermark
    requires forall id :: id in unique && id !in dups ==>
               SameOutcome(Label(unique, dups, baselines, id), model.outcomes[id])
    ensures SamePlan(MakePlan(unique, dups, baselines, watermark), model)
  {
  }

  lemma LabelsAgree(unique: map<EventId, ChangeEvent>, dups: set<EventId>, baselines: map<Key, int>,
                    silver: map<Key, Semantics.Row>, batchId: int, outcomes: map<EventId, Semantics.Outcome>)
    requires DistinctRanks(unique, dups)
    requires forall k :: Get(baselines, k) == Semantics.Baseline(silver, k, batchId)
    requires Semantics.OutcomesOk(outcomes, map j | j in unique && j !in dups :: unique[j], silver, batchId)
    ensures outcomes.Keys == unique.Keys - dups
    ensures forall id :: id in unique && id !in dups ==> SameOutcome(Label(unique, dups, baselines, id), outcomes[id])
  {
    forall id | id in unique && id !in dups
      ensures SameOutcome(Label(unique, dups, baselines, id), outcomes[id])
    {
      OutcomeAgrees(unique, dups, baselines, silver, batchId, outcomes, id);
    }
  }

  lemma SamePlanOf(unique: map<EventId, ChangeEvent>, dups: set<EventId>, baselines: map<Key, int>,
                   silver: map<Key, Semantics.Row>, batchId: int, watermark: int, model: Semantics.BatchPlan)
    requires DistinctRanks(unique, dups) && dups <= unique.Keys
    requires forall k :: Get(baselines, k) == Semantics.Baseline(silver, k, batchId)
    requires Semantics.LabelsOf(model, unique, map j | j in unique && j !in dups :: unique[j], silver, batchId,
                                watermark)
    ensures SamePlan(MakePlan(unique, dups, baselines, watermark), model)
  {
    LabelsAgree(unique, dups, baselines, silver, batchId, model.outcomes);
    assert model.priorDuplicates == dups;
    SamePlanFrom(unique, dups, baselines, watermark, model);
  }

  /** Whatever plan_batch returns on the model's view of the lake, the sink's plan says the same of every event. */
  lemma PlansAgree(h: History, lake: Lake, valid: seq<ChangeEvent>, stamp: Stamp, watermark: int, lateness: int,
                   model: Semantics.BatchPlan)
    requires From(h, valid) && Current(h, lake, stamp)
    requires DistinctRanks(Kept(valid), PriorDups(valid, lake.bronze, stamp))
    requires Semantics.IsPlanOf(model, stamp.batch, valid, ModelSilver(lake.silver, stamp.epoch),
                                ModelBronze(lake.bronze, stamp.epoch), watermark, lateness)
    ensures SamePlan(PlanOn(valid, lake.silver, lake.bronze, stamp, watermark), model)
    ensures |valid| - |PlanOn(valid, lake.silver, lake.bronze, stamp, watermark)| == model.inBatchDuplicates
  {
    var plan := PlanOn(valid, lake.silver, lake.bronze, stamp, watermark);
    KeptIsFrom(h, valid);
    CandidatesAgree(h, lake, valid, stamp);
    var silver := ModelSilver(lake.silver, stamp.epoch);
    forall k ensures Get(Baselines(lake.silver, stamp), k) == Semantics.Baseline(silver, k, stamp.batch) {
      BaselineAgrees(lake.silver, stamp, k);
    }
    SamePlanOf(Kept(valid), PriorDups(valid, lake.bronze, stamp), Baselines(lake.silver, stamp), silver,
               stamp.batch, watermark, model);
    assert |plan| == |plan.Keys| && |Kept(valid)| == |Kept(valid).Keys|;
  }

  /** The left anti join appends exactly the ids the model appends. */
  lemma AppendsAgree(h: History, lake: Lake, valid: seq<ChangeEvent>, stamp: Stamp, plan: Plan, appends: seq<EventId>)
    requires From(h, valid) && Current(h, lake, stamp)
    requires plan.Keys == Ids(valid) && forall id :: id in plan ==> plan[id].event == Kept(valid)[id]
    requires forall id :: id in plan ==> (plan[id].outcome == Duplicate <==> id in PriorDups(valid, lake.bronze, stamp))
    requires forall id :: id in appends <==> id in Kept(valid) && id !in ModelBronze(lake.bronze, stamp.epoch)
    ensures (set id | id in appends) ==
            set r | r in FreshRows(lake.bronze, plan, MinTs(valid), MaxTs(valid), stamp) :: r.event.id
  {
    var added := FreshRows(lake.bronze, plan, MinTs(valid), MaxTs(valid), stamp);
    forall id | id in Ids(valid)
      ensures InLookup(lake.bronze, id, MinTs(valid), MaxTs(valid)) <==> id in BronzeIds(lake.bronze)
      ensures id in PriorDups(valid, lake.bronze, stamp) ==> id in BronzeIds(lake.bronze)
    {
      LookupIsComplete(h, lake.bronze, valid, id);
    }
    forall id | id in appends ensures exists r :: r in added && r.event.id == id {
      var r := BronzeRow(plan[id].event, plan[id].outcome, plan[id].late, stamp);
      assert r in added && r.event.id == id;
    }
  }

  lemma MergeRowAgrees(row: Option<SilverRow>, e: ChangeEvent, stamp: Stamp)
    ensures ModelRow(MergeRow(row, e, stamp), stamp.epoch) ==
            Semantics.ApplyOne(if row.Some? then Some(ModelRow(row.value, stamp.epoch)) else None, e, stamp.batch)
  {
  }

  /** The MERGE statements of a batch leave the silver state apply_plan leaves. */
  lemma SilverAgrees(silver: Silver, winners: map<Key, ChangeEvent>, toApply: seq<ChangeEvent>, stamp: Stamp)
    requires forall i, j :: 0 <= i < j < |toApply| ==> toApply[i].change.key != toApply[j].change.key
    requires forall k :: k in winners ==> winners[k] in toApply && winners[k].change.key == k
    requires forall e :: e in toApply ==> e.change.key in winners && winners[e.change.key] == e
    ensures ModelSilver(MergeAll(silver, winners, stamp), stamp.epoch) ==
            Semantics.ApplyAll(ModelSilver(silver, stamp.epoch), toApply, stamp.batch)
  {
    var a := ModelSilver(MergeAll(silver, winners, stamp), stamp.epoch);
    var m := ModelSilver(silver, stamp.epoch);
    var b := Semantics.ApplyAll(m, toApply, stamp.batch);
    forall k ensures Get(a, k) == Get(b, k) {
      Semantics.ApplyPerKey(m, toApply, stamp.batch, k);
      assert Get(m, k) == if k in silver then Some(ModelRow(silver[k], stamp.epoch)) else None;
      assert Get(MergeAll(silver, winners, stamp), k) ==
             if k in winners then Some(MergeRow(Get(silver, k), winners[k], stamp)) else Get(silver, k);
      if k in winners { MergeRowAgrees(Get(silver, k), winners[k], stamp); }
    }
    MapsEqualByGet(a, b);
  }

  lemma WinnersAgree(plan: Plan, unique: map<EventId, ChangeEvent>, model: Semantics.BatchPlan)
    requires OnePerKey(plan) && SamePlan(plan, model) && plan.Keys == unique.Keys
    requires forall id :: id in plan ==> plan[id].event == unique[id] && unique[id].id == id
    requires model.outcomes.Keys == unique.Keys - model.priorDuplicates && Semantics.DistinctIds(model.toApply)
    requires forall e :: e in model.toApply <==>
               e.id in model.outcomes && model.outcomes[e.id] == Semantics.Applied && e == unique[e.id]
    ensures forall i, j :: 0 <= i < j < |model.toApply| ==> model.toApply[i].change.key != model.toApply[j].change.key
    ensures forall k :: k in Winners(plan) ==> Winners(plan)[k] in model.toApply && Winners(plan)[k].change.key == k
    ensures forall e :: e in model.toApply ==> e.change.key in Winners(plan) && Winners(plan)[e.change.key] == e
  {
    forall e ensures e in model.toApply <==> IsApplied(plan, e.id) && plan[e.id].event == e {
    }
    forall i, j | 0 <= i < j < |model.toApply| ensures model.toApply[i].change.key != model.toApply[j].change.key {
      assert model.toApply[i] in model.toApply && model.toApply[j] in model.toApply;
    }
  }

  lemma PlanShape(valid: seq<ChangeEvent>, silver: Silver, bronze: Bronze, stamp: Stamp, watermark: int)
    ensures var plan := PlanOn(valid, silver, bronze, stamp, watermark);
            && plan.Keys == Ids(valid)
            && (forall id :: id in plan ==> plan[id].event == Kept(valid)[id] && Kept(valid)[id].id == id)
            && (forall id :: id in plan ==> (plan[id].outcome == Duplicate <==> id in PriorDups(valid, bronze, stamp)))
  {
  }

  /** The part of plan_batch's promise that says what is written. */
  lemma ModelWrites(model: Semantics.BatchPlan, batchId: int, valid: seq<ChangeEvent>, silver: map<Key, Semantics.Row>,
                    bronze: map<EventId, int>, watermark: int, lateness: int)
    requires Semantics.IsPlanOf(model, batchId, valid, silver, bronze, watermark, lateness)
    ensures model.outcomes.Keys == Kept(valid).Keys - model.priorDuplicates && Semantics.DistinctIds(model.toApply)
    ensures forall e :: e in model.toApply <==>
              e.id in model.outcomes && model.outcomes[e.id] == Semantics.Applied && e == Kept(valid)[e.id]
    ensures forall id :: id in model.bronzeAppends <==> id in Kept(valid) && id !in bronze
  {
  }

  /** One batch through the sink and through the model ends in the same silver rows ... */
  lemma SilverStatesAgree(h: History, lake: Lake, valid: seq<ChangeEvent>, stamp: Stamp, watermark: int, lateness: int,
                          model: Semantics.BatchPlan)
    requires From(h, valid) && Current(h, lake, stamp)
    requires DistinctRanks(Kept(valid), PriorDups(valid, lake.bronze, stamp))
    requires Semantics.IsPlanOf(model, stamp.batch, valid, ModelSilver(lake.silver, stamp.epoch),
                                ModelBronze(lake.bronze, stamp.epoch), watermark, lateness)
    ensures OnePerKey(PlanOn(valid, lake.silver, lake.bronze, stamp, watermark))
    ensures var plan := PlanOn(valid, lake.silver, lake.bronze, stamp, watermark);
            ModelSilver(MergeAll(lake.silver, Winners(plan), stamp), stamp.epoch) ==
            Semantics.ApplyAll(ModelSilver(lake.silver, stamp.epoch), model.toApply, stamp.batch)
    ensures Semantics.DistinctKeys(model.toApply)
  {
    var plan := PlanOn(valid, lake.silver, lake.bronze, stamp, watermark);
    PlanIsOnePerKey(Kept(valid), PriorDups(valid, lake.bronze, stamp), Baselines(lake.silver, stamp), watermark);
    assert SamePlan(plan, model) by { PlansAgree(h, lake, valid, stamp, watermark, lateness, model); }
    PlanShape(valid, lake.silver, lake.bronze, stamp, watermark);
    ModelWrites(model, stamp.batch, valid, ModelSilver(lake.silver, stamp.epoch), ModelBronze(lake.bronze, stamp.epoch),
                watermark, lateness);
    WinnersAgree(plan, Kept(valid), model);
    SilverAgrees(lake.silver, Winners(plan), model.toApply, stamp);
  }

  /** ... and in the same bronze ids. */
  lemma BronzeStatesAgree(h: History, lake: Lake, valid: seq<ChangeEvent>, stamp: Stamp, watermark: int, lateness: int,
                          model: Semantics.BatchPlan)
    requires From(h, valid) && Current(h, lake, stamp)
    requires Semantics.IsPlanOf(model, stamp.batch, valid, ModelSilver(lake.silver, stamp.epoch),
                                ModelBronze(lake.bronze, stamp.epoch), watermark, lateness)
    ensures var plan := PlanOn(valid, lake.silver, lake.bronze, stamp, watermark);
            BronzeIds(Append(lake.bronze, plan, valid, stamp)) ==
            BronzeIds(lake.bronze) + set id | id in model.bronzeAppends
  {
    var plan := PlanOn(valid, lake.silver, lake.bronze, stamp, watermark);
    PlanShape(valid, lake.silver, lake.bronze, stamp, watermark);
    ModelWrites(model, stamp.batch, valid, ModelSilver(lake.silver, stamp.epoch), ModelBronze(lake.bronze, stamp.epoch),
                watermark, lateness);
    AppendsAgree(h, lake, valid, stamp, plan, model.bronzeAppends);
    IdsOfAppend(lake.bronze, plan, valid, stamp);
  }

  lemma IdsOfAppend(bronze: Bronze, plan: Plan, valid: seq<ChangeEvent>, stamp: Stamp)
    ensures BronzeIds(Append(bronze, plan, valid, stamp)) ==
            BronzeIds(bronze) + set r | r in FreshRows(bronze, plan, MinTs(valid), MaxTs(valid), stamp) :: r.event.id
  {
    var added := FreshRows(bronze, plan, MinTs(valid), MaxTs(valid), stamp);
    var after := Append(bronze, plan, valid, stamp);
    assert forall r :: r in after <==> r in bronze || r in added;
    forall id
      ensures id in BronzeIds(after) <==> id in BronzeIds(bronze) || exists r :: r in added && r.event.id == id
    {
      if r :| r in bronze && r.event.id == id { assert r in after; }
      if r :| r in added && r.event.id == id { assert r in after; }
    }
  }

  /** The two formulas agree exactly when no prior duplicate reaches past the model's watermark. */
  lemma WatermarkByResult(h: History, valid: seq<ChangeEvent>, dups: set<EventId>, before: int, after: int,
                          lateness: int)
    requires From(h, valid) && dups <= Ids(valid)
    requires Semantics.WatermarkOk(after, before, map j | j in Kept(valid) && j !in dups :: Kept(valid)[j], lateness)
    ensures Advance(before, valid, lateness) == after <==>
            forall id :: id in dups ==> h[id].tsMs - lateness <= after
  {
    var unique := Kept(valid);
    var candidates := map j | j in unique && j !in dups :: unique[j];
    KeptIsFrom(h, valid);
    var sink := Advance(before, valid, lateness);
    forall id | id in unique ensures h[id].tsMs - lateness <= sink && unique[id].change == h[id] {
    }
    assert after <= sink;
    if sink != after {
      var e :| e in valid && e.change.tsMs == MaxTs(valid);
      assert h[e.id] == e.change && e.id in unique;
      assert e.id in candidates || e.id in dups;
    }
  }

  /** A prior duplicate that neither exceeds the watermark the batch starts from nor every fresh event of the batch. */
  ghost predicate NotAhead(h: History, valid: seq<ChangeEvent>, dups: set<EventId>, before: int, lateness: int,
                           id: EventId)
    requires From(h, valid) && id in Ids(valid)
  {
    h[id].tsMs - lateness <= before || exists j :: j in Ids(valid) - dups && h[id].tsMs <= h[j].tsMs
  }

  /** The sink advances its watermark over every valid row, the model over the candidates only. They agree exactly
      when every prior duplicate of the batch is covered by the watermark before it or by a candidate as late. */
  lemma WatermarkFormulas(h: History, valid: seq<ChangeEvent>, dups: set<EventId>, before: int, after: int,
                          lateness: int)
    requires From(h, valid) && dups <= Ids(valid)
    requires Semantics.WatermarkOk(after, before, map j | j in Kept(valid) && j !in dups :: Kept(valid)[j], lateness)
    ensures Advance(before, valid, lateness) == after <==>
            forall id :: id in dups ==> NotAhead(h, valid, dups, before, lateness, id)
  {
    WatermarkByResult(h, valid, dups, before, after, lateness);
    KeptIsFrom(h, valid);
    var candidates := map j | j in Kept(valid) && j !in dups :: Kept(valid)[j];
    forall id | id in dups
      ensures h[id].tsMs - lateness <= after <==> NotAhead(h, valid, dups, before, lateness, id)
    {
      if h[id].tsMs - lateness <= after && after != before {
        var j :| j in candidates && after == candidates[j].change.tsMs - lateness;
        assert j in Ids(valid) - dups && h[j] == candidates[j].change;
      }
      if j :| j in Ids(valid) - dups && h[id].tsMs <= h[j].tsMs {
        assert j in candidates && candidates[j].change == h[j];
      }
    }
  }

  /** They do differ: bronze holds one event from before a wipe, and the first batch of the new epoch brings it back.
      The sink's watermark goes to that event's time, the model's stays at zero. */
  lemma WatermarkFormulasDiffer()
    ensures var e := ChangeEvent("e1", Change(Key("shop.orders", "o1"), Create, 10, 1_000_000, None), "t", 0, 0);
            var bronze: Bronze := multiset{BronzeRow(e, Applied, false, Stamp("first", 0))};
            var dups := PriorDups([e], bronze, Stamp("second", 0));
            && Semantics.WatermarkOk(0, 0, map j | j in Kept([e]) && j !in dups :: Kept([e])[j], 300_000)
            && Advance(0, [e], 300_000) == 700_000
  {
    var e := ChangeEvent("e1", Change(Key("shop.orders", "o1"), Create, 10, 1_000_000, None), "t", 0, 0);
    var row := BronzeRow(e, Applied, false, Stamp("first", 0));
    assert e in [e] && [e][0] == e;
    assert Ids([e]) == {"e1"};
    assert row in multiset{row} && MinTs([e]) <= 1_000_000 <= MaxTs([e]);
    assert PriorDup(multiset{row}, "e1", MinTs([e]), MaxTs([e]), Stamp("second", 0));
  }
}
