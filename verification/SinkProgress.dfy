/** No run gets stuck: a pending batch can be brought to its commit from wherever a crash left it. */
module SinkProgress {
  import opened Events
  import opened SinkPlan
  import opened SinkBatch
  import opened SinkRun
  import opened SinkInvariant

  lemma OneMoreAction(h: History, cfg: Config, epoch: string, actions: seq<Action>, s: State, a: Action)
    requires IsRun(h, cfg, epoch, actions, s) && Enabled(h, cfg, s, a)
    ensures IsRun(h, cfg, epoch, actions + [a], Next(cfg, s, a))
  {
    hide Enabled, Next;
    assert (actions + [a])[..|actions|] == actions;
  }

  function StepsLeft(cfg: Config, s: State): nat {
    match s.phase
    case Idle => WriteCount(cfg) + 2
    case Running(_, pc) => if pc < WriteCount(cfg) then WriteCount(cfg) - pc + 1 else 1
    case Finished => 1
  }

  /** What a driver that is left alone does next. */
  function Resume(s: State): Action {
    match s.phase
    case Idle => Begin
    case Running(_, _) => Write
    case Finished => Commit
  }

  lemma ResumeIsEnabled(h: History, cfg: Config, s: State)
    requires Inv(h, cfg, s) && s.pending.Some?
    ensures Enabled(h, cfg, s, Resume(s))
    ensures s.phase.Running? ==> s.phase.pc < WriteCount(cfg)
  {
    if s.phase.Running? { RunningBatch(h, cfg, CleanRun(h, cfg, s.base, s.epoch, s.log), s); }
  }

  lemma ResumeProgresses(cfg: Config, s: State)
    requires s.pending.Some? && (s.phase.Running? ==> s.phase.pc < WriteCount(cfg) && OnePerKey(s.phase.job.plan))
    ensures var next := Next(cfg, s, Resume(s));
            if s.phase.Finished? then
              next.pending.None? && next.log == s.log + [s.pending.value] && next.epoch == s.epoch
            else next.pending == s.pending && next.log == s.log && next.epoch == s.epoch &&
                 StepsLeft(cfg, next) < StepsLeft(cfg, s)
  {
    hide Exec, StartJob, Advance, OnePerKey;
  }

  /** From every reachable state with a batch pending, however many attempts died before, the job left alone commits
      exactly that batch. */
  lemma {:induction false} PendingBatchCanCommit(h: History, cfg: Config, epoch: string, actions: seq<Action>, s: State)
    returns (more: seq<Action>, end: State)
    requires DistinctLsns(h) && IsRun(h, cfg, epoch, actions, s) && s.pending.Some?
    ensures IsRun(h, cfg, epoch, actions + more, end)
    ensures end.pending.None? && end.epoch == s.epoch && end.log == s.log + [s.pending.value]
    decreases StepsLeft(cfg, s)
  {
    hide Inv, Enabled, Next, IsRun, StepsLeft;
    var a := Resume(s);
    RunKeeps(h, cfg, epoch, actions, s);
    ResumeIsEnabled(h, cfg, s);
    if s.phase.Running? { EnabledWrite(h, cfg, s); }
    OneMoreAction(h, cfg, epoch, actions, s, a);
    ResumeProgresses(cfg, s);
    var next := Next(cfg, s, a);
    if s.phase.Finished? {
      more, end := [a], next;
    } else {
      var rest, last := PendingBatchCanCommit(h, cfg, epoch, actions + [a], next);
      more, end := [a] + rest, last;
      assert actions + [a] + rest == actions + more;
    }
  }

  lemma EnabledWrite(h: History, cfg: Config, s: State)
    requires Enabled(h, cfg, s, Resume(s)) && s.phase.Running?
    ensures s.phase.pc < WriteCount(cfg) && OnePerKey(s.phase.job.plan)
  {
  }
}
