/** What holds over whole runs holds of the shared file, whoever writes it and however they interleave. */
module SharedRuns {
  import opened StoreModel
  import opened StepEffects
  import opened Runs
  import opened FileProtocol

  /** Committed transactions are never taken back. */
  lemma {:induction false} HistoryGrows(w: World, trace: seq<(nat, Move)>)
    ensures w.history <= Play(w, trace).history
  {
    hide Do;
    if trace != [] {
      var init, last := trace[..|trace| - 1], trace[|trace| - 1];
      HistoryGrows(w, init);
      OneMoveGrows(Play(w, init), last.0, last.1);
    }
  }

  lemma OneMoveGrows(w: World, p: nat, move: Move)
    ensures w.history <= Do(w, p, move).history
  {
    MoveTouches(w, p, move);
  }

  lemma {:induction false} ReplaySplit(base: StoreState, a: seq<Job>, b: seq<Job>)
    requires Good(base)
    ensures Replay(base, a + b) == Replay(Replay(base, a), b)
  {
    hide Good, Effect;
    if b == [] {
      assert a + b == a;
    } else {
      ReplaySplit(base, a, b[..|b| - 1]);
      assert (a + b)[..|a + b| - 1] == a + b[..|b| - 1];
    }
  }

  /** From any reachable world on, the file goes through a run of steps, those of the transactions committed since. */
  lemma {:induction false} FileGoesThroughARun(base: StoreState, w: World, trace: seq<(nat, Move)>)
    requires WorldOk(base, w)
    ensures Good(StoreOf(w.file))
    ensures var w' := Play(w, trace);
            && |w.history| <= |w'.history|
            && StoreOf(w'.file) == Run(StoreOf(w.file), AllSteps(StoreOf(w.file), w'.history[|w.history|..]))
  {
    hide Good, Effect, Do, Run, LocksHeld, ProcessOk, Play, AllSteps, Replay;
    var w' := Play(w, trace);
    HistoryGrows(w, trace);
    PlayOk(base, w, trace);
    var since := w'.history[|w.history|..];
    assert w'.history == w.history + since;
    ReplaySplit(base, w.history, since);
    HistoryIsARun(Replay(base, w.history), since);
  }

  /** Every step of a committed history comes from one of its jobs: its sweep, its stamp, or one it was asked for. */
  lemma {:induction false} StepFromJob(base: StoreState, history: seq<Job>, step: Step) returns (job: Job)
    requires Good(base) && step in AllSteps(base, history)
    ensures job in history
    ensures step == Step(SweepLeases, job.now) || step == Step(StampStore, job.now) ||
            (job.UpdateJob? && step in job.steps)
  {
    hide Good, Replay, Effect, Taken;
    var init, last := history[..|history| - 1], history[|history| - 1];
    if step in AllSteps(base, init) {
      job := StepFromJob(base, init, step);
    } else {
      job := last;
      if last.UpdateJob? {
        PerformAllIsARun(AfterSweep(Replay(base, init), last), last.steps);
      }
    }
  }

  /**
   * A live lease in the file is exclusive against all processes: as long as what is committed
   * happens before it expires and is not the owner's own work on the task, the task stays where it
   * is, with the same owner, status and lease.
   */
  lemma {:induction false} LeaseHoldsInTheFile(base: StoreState, w: World, trace: seq<(nat, Move)>, id: nat)
    requires WorldOk(base, w) && id in StoreOf(w.file).tasks && StoreOf(w.file).tasks[id].status == IN_PROGRESS
    requires var t, w' := StoreOf(w.file).tasks[id], Play(w, trace);
             forall i :: |w.history| <= i < |w'.history| ==>
               && w'.history[i].now < t.leaseExpires
               && (w'.history[i].UpdateJob? ==> forall step :: step in w'.history[i].steps ==>
                     step.now < t.leaseExpires && ActsOn(step, id) != t.owner)
    ensures var t, tasks := StoreOf(w.file).tasks[id], StoreOf(Play(w, trace).file).tasks;
            && id in tasks && tasks[id].status == IN_PROGRESS && tasks[id].owner == t.owner
            && tasks[id].leaseExpires == t.leaseExpires
  {
    hide Good, Effect, Do, Run, LocksHeld, ProcessOk, Play, Replay, AllSteps;
    FileGoesThroughARun(base, w, trace);
    var s, w' := StoreOf(w.file), Play(w, trace);
    var since := w'.history[|w.history|..];
    OwnerNamed(s, id);
    forall step | step in AllSteps(s, since)
      ensures step.now < s.tasks[id].leaseExpires && ActsOn(step, id) != s.tasks[id].owner
    {
      var job := StepFromJob(s, since, step);
      var i :| 0 <= i < |since| && since[i] == job;
      assert w'.history[|w.history| + i] == job;
    }
    LiveLeaseIsExclusive(s, AllSteps(s, since), id);
  }

  lemma OwnerNamed(s: StoreState, id: nat)
    requires Good(s) && id in s.tasks && s.tasks[id].status == IN_PROGRESS
    ensures s.tasks[id].owner != ""
  {
  }
}
