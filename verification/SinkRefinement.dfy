/** The reference model holds at every moment of every run, in the middle of a half-written batch too. */
module SinkRefinement {
  import opened Events
  import opened SinkPlan
  import opened SinkBatch
  import opened SinkRecovery
  import opened SinkSafety
  import opened SinkRun
  import opened SinkInvariant
  import opened SinkAgreement
  import Semantics

  lemma RunningAttempt(h: History, cfg: Config, s: State)
    requires Inv(h, cfg, s) && s.phase.Running?
    ensures s.pending.Some? && Deliverable(h, cfg, s.pending.value)
    ensures s.phase.job == FirstJob(s.lake, StampOf(s), s.pending.value)
    ensures Current(h, s.lake, StampOf(s))
  {
    var start := CleanRun(h, cfg, s.base, s.epoch, s.log);
    var records := s.pending.value;
    var job := FirstJob(start, StampOf(s), records);
    CleanRunOk(h, cfg, s.base, s.epoch, s.log);
    PlanStable(h, cfg, start, StampOf(s), records, s.lake);
    StampsAfter(cfg, start, job, s.lake);
    InvLakeOk(h, cfg, s);
  }

  /** Whatever earlier attempts left behind, if plan_batch were asked at any write boundary about the tables as they
      are, it would answer with the plan the running attempt is carrying out. */
  lemma RunsAgreeWithModel(h: History, cfg: Config, epoch: string, actions: seq<Action>, s: State,
                           model: Semantics.BatchPlan)
    requires DistinctLsns(h) && IsRun(h, cfg, epoch, actions, s) && s.phase.Running? && s.pending.Some?
    requires Semantics.IsPlanOf(model, s.batchId, ValidEvents(s.pending.value), ModelSilver(s.lake.silver, s.epoch),
                                ModelBronze(s.lake.bronze, s.epoch), WatermarkBefore(s), cfg.lateness)
    ensures SamePlan(s.phase.job.plan, model)
  {
    hide Inv, Current, SamePlan, Semantics.IsPlanOf;
    RunKeeps(h, cfg, epoch, actions, s);
    CacheNeverStale(h, cfg, epoch, actions, s);
    RunningAttempt(h, cfg, s);
    KeptIsFrom(h, ValidEvents(s.pending.value));
    RanksFromLsns(h, Kept(ValidEvents(s.pending.value)),
                  PriorDups(ValidEvents(s.pending.value), s.lake.bronze, StampOf(s)));
    PlansAgree(h, s.lake, ValidEvents(s.pending.value), StampOf(s), WatermarkBefore(s), cfg.lateness, model);
  }
}
