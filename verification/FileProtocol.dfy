/**
 * Many processes sharing one store file: `Update` and `LoadCurrent` as steps of a lock, a load, a
 * sweep, a mutation, a temporary file and a rename, interleaved in any order and cut short by
 * crashes and I/O errors anywhere. The rename is the one point where anything is committed.
 */
module FileProtocol {
  import opened Wrappers
  import opened StoreModel
  import opened StepEffects
  import opened Runs
  import opened Batches
  import opened Transactions

  /** What is found at a path: nothing, a file only partly written, or a complete store. */
  datatype Content = Missing | Torn | Whole(store: StoreState)

  /** A transaction that takes steps in turn, or a load that reclaims expired leases if it sees any. */
  datatype Job = UpdateJob(steps: seq<Step>, now: nat) | LoadJob(peekNow: nat, now: nat)

  datatype Phase =
    | Started | ReadLocked | Peeked | Deciding | Relocking
    | WriteLocked | Loaded | Swept | Mutated | Writing | Written | Renamed
    | Finished | Refused | Failed

  /**
   * A process: its job and how far it is, its store in memory, whether that has to be written,
   * whether its operation was refused, its temporary file, and how many transactions were committed
   * when it began. It ends `Finished` with a store to return, `Refused` with the error of its
   * operation, or `Failed`.
   */
  datatype Process = Process(job: Job, phase: Phase, store: StoreState, dirty: bool, refused: bool, temp: Content,
                             since: nat)

  datatype World = World(file: Content, writer: Option<nat>, readers: set<nat>, procs: map<nat, Process>,
                         history: seq<Job>)

  datatype Move =
    | Begin(job: Job) | LockShared | Peek | UnlockShared | Decide | LockExclusive | Load | SweepExpired | Mutate
    | StartWrite | FinishWrite | Rename | Unlock | Crash | Fail

  // ----- what one job does to a store -----

  function JobTime(job: Job): nat {
    job.now
  }

  /** One step on any store; the program's stores are all `Good`, and what is not admitted is refused. */
  ghost function OneStep(): (StoreState, Step) -> Outcome {
    (s: StoreState, step: Step) =>
      if Good(s) && Admitted(s, step) then Perform(s, step) else Outcome(s, Some(InvalidArgs))
  }

  /** The steps of a transaction in turn, until the first that is refused. */
  ghost function PerformAll(s: StoreState, steps: seq<Step>): Outcome {
    InTurn(s, steps, OneStep())
  }

  /** The steps that are taken: all, or those up to and including the first refused one. */
  ghost function Taken(s: StoreState, steps: seq<Step>): seq<Step> {
    if steps != [] && PerformAll(s, steps[..|steps| - 1]).error.Some? then Taken(s, steps[..|steps| - 1]) else steps
  }

  lemma {:induction false} PerformAllIsARun(s: StoreState, steps: seq<Step>)
    requires Good(s)
    ensures Taken(s, steps) <= steps
    ensures PerformAll(s, steps).store == Run(s, Taken(s, steps))
  {
    hide Good, Perform, Admitted;
    if steps != [] {
      var init, last := steps[..|steps| - 1], steps[|steps| - 1];
      PerformAllIsARun(s, init);
      if PerformAll(s, init).error.None? {
        TakenAll(s, init);
        OneStepIsNext(Run(s, init), last);
      }
    }
  }

  lemma {:induction false} TakenAll(s: StoreState, steps: seq<Step>)
    requires PerformAll(s, steps).error.None?
    ensures Taken(s, steps) == steps
  {
  }

  lemma OneStepIsNext(s: StoreState, step: Step)
    requires Good(s)
    ensures OneStep()(s, step).store == Next(s, step)
  {
  }

  ghost function AfterSweep(s: StoreState, job: Job): (r: StoreState)
    requires Good(s)
    ensures Good(r)
  {
    Next(s, Step(SweepLeases, JobTime(job)))
  }

  ghost function AfterMutation(s: StoreState, job: Job): (r: StoreState)
    requires Good(s)
    ensures Good(r)
  {
    match job
    case UpdateJob(steps, _) =>
      PerformAllIsARun(AfterSweep(s, job), steps);
      PerformAll(AfterSweep(s, job), steps).store
    case LoadJob(_, _) => AfterSweep(s, job)
  }

  /** The whole of a committed transaction, as a function of the store it was applied to. */
  ghost function Effect(s: StoreState, job: Job): (r: StoreState)
    requires Good(s)
    ensures Good(r)
  {
    Next(AfterMutation(s, job), Step(StampStore, JobTime(job)))
  }

  ghost predicate Succeeds(s: StoreState, job: Job) {
    job.UpdateJob? && PerformAll(s, job.steps).error.None?
  }

  /** The store after a sequence of transactions, one after the other. */
  ghost function Replay(base: StoreState, history: seq<Job>): (r: StoreState)
    requires Good(base)
    ensures Good(r)
  {
    if history == [] then base else Effect(Replay(base, history[..|history| - 1]), history[|history| - 1])
  }

  // ----- the moves -----

  function StoreOf(file: Content): StoreState {
    if file.Whole? then file.store else EMPTY_STORE
  }

  function To(w: World, p: nat, proc: Process): World {
    w.(procs := w.procs[p := proc])
  }

  predicate IsReadMove(move: Move) {
    move.LockShared? || move.Peek? || move.UnlockShared? || move.Decide?
  }

  predicate IsStop(move: Move) {
    move.Crash? || move.Fail?
  }

  /** The steps of `Load`, and the decision `LoadCurrent` takes on the snapshot it returned. */
  function ReadMove(w: World, p: nat, me: Process, move: Move): World {
    match move
    case LockShared =>
      if me.phase.Started? && me.job.LoadJob? && w.writer.None?
      then To(w, p, me.(phase := ReadLocked)).(readers := w.readers + {p}) else w
    case Peek =>
      if !me.phase.ReadLocked? then w
      else if w.file.Torn? then To(w, p, me.(phase := Failed)).(readers := w.readers - {p})
      else To(w, p, me.(phase := Peeked, store := StoreOf(w.file)))
    case UnlockShared =>
      if me.phase.Peeked? then To(w, p, me.(phase := Deciding)).(readers := w.readers - {p}) else w
    case Decide =>
      if !me.phase.Deciding? || !me.job.LoadJob? then w
      else To(w, p, me.(phase := if ExpiredIds(me.store.tasks, me.job.peekNow) == {} then Finished else Relocking))
    case _ => w
  }

  /** The process as it works on the store it has loaded; that store is always a `Good` one. */
  ghost function WorkMove(me: Process, move: Move): Process
    requires Good(me.store)
  {
    match move
    case SweepExpired =>
      if me.phase.Loaded?
      then me.(phase := Swept, store := AfterSweep(me.store, me.job),
               dirty := ExpiredIds(me.store.tasks, JobTime(me.job)) != {})
      else me
    case Mutate =>
      if !me.phase.Swept? then me
      else if me.job.UpdateJob?
      then me.(phase := Mutated, store := PerformAll(me.store, me.job.steps).store,
               dirty := me.dirty || Succeeds(me.store, me.job), refused := !Succeeds(me.store, me.job))
      else me.(phase := Mutated)
    case StartWrite =>
      if me.phase.Mutated? && me.dirty
      then me.(phase := Writing, store := Next(me.store, Step(StampStore, JobTime(me.job))), temp := Torn) else me
    case FinishWrite =>
      if me.phase.Writing? then me.(phase := Written, temp := Whole(me.store)) else me
    case _ => me
  }

  /** The steps of a transaction under the write lock. */
  ghost function WriteMove(w: World, p: nat, me: Process, move: Move): World {
    match move
    case LockExclusive =>
      if ((me.phase.Started? && me.job.UpdateJob?) || me.phase.Relocking?) && w.writer.None? && w.readers == {}
      then To(w, p, me.(phase := WriteLocked)).(writer := Some(p)) else w
    case Load =>
      if !me.phase.WriteLocked? then w
      else if w.file.Torn? then To(w, p, me.(phase := Failed)).(writer := None)
      else To(w, p, me.(phase := Loaded, store := StoreOf(w.file)))
    case Rename =>
      if me.phase.Written?
      then To(w, p, me.(phase := Renamed, temp := Missing)).(file := me.temp, history := w.history + [me.job]) else w
    case Unlock =>
      if me.phase.Renamed? || (me.phase.Mutated? && !me.dirty)
      then To(w, p, me.(phase := if me.refused then Refused else Finished)).(writer := None)
      else w
    case _ => if Good(me.store) then To(w, p, WorkMove(me, move)) else w
  }

  /** A crash takes the process and its locks; an I/O error before the rename ends the job. */
  function Stop(w: World, p: nat, me: Process, move: Move): World {
    if move.Crash? then
      World(w.file, if w.writer == Some(p) then None else w.writer, w.readers - {p}, w.procs - {p}, w.history)
    else if HoldsExclusive(me.phase) && !me.phase.Renamed?
    then To(w, p, me.(phase := Failed, temp := Missing)).(writer := None)
    else if HoldsShared(me.phase) then To(w, p, me.(phase := Failed)).(readers := w.readers - {p})
    else w
  }

  function Start(w: World, p: nat, job: Job): World {
    if (p in w.procs && !HasEnded(w.procs[p].phase)) || JobTime(job) == 0 then w
    else To(w, p, Process(job, Started, EMPTY_STORE, false, false, Missing, |w.history|))
  }

  /** One move of process `p`; a move that is not possible where it stands changes nothing. */
  ghost function Do(w: World, p: nat, move: Move): World {
    if move.Begin? then Start(w, p, move.job)
    else if p !in w.procs then w
    else if IsReadMove(move) then ReadMove(w, p, w.procs[p], move)
    else if IsStop(move) then Stop(w, p, w.procs[p], move)
    else WriteMove(w, p, w.procs[p], move)
  }

  ghost function Play(w: World, trace: seq<(nat, Move)>): World {
    if trace == [] then w
    else
      var (p, move) := trace[|trace| - 1];
      Do(Play(w, trace[..|trace| - 1]), p, move)
  }

  // ----- the invariant -----

  predicate HoldsExclusive(phase: Phase) {
    phase.WriteLocked? || phase.Loaded? || phase.Swept? || phase.Mutated? || phase.Writing? || phase.Written? ||
    phase.Renamed?
  }

  predicate IsPastMutation(phase: Phase) {
    phase.Mutated? || phase.Writing? || phase.Written? || phase.Renamed?
  }

  predicate HasEnded(phase: Phase) {
    phase.Finished? || phase.Refused? || phase.Failed?
  }

  predicate HoldsShared(phase: Phase) {
    phase.ReadLocked? || phase.Peeked?
  }

  ghost predicate LocksHeld(w: World) {
    && (forall p :: p in w.procs ==> (HoldsExclusive(w.procs[p].phase) <==> w.writer == Some(p)))
    && (forall p :: p in w.procs ==> (HoldsShared(w.procs[p].phase) <==> p in w.readers))
    && (w.writer.Some? ==> w.writer.value in w.procs && w.readers == {})
    && w.readers <= w.procs.Keys
  }

  /** The last committed transaction was one whose operation succeeded. */
  ghost predicate LastSucceeds(base: StoreState, history: seq<Job>)
    requires Good(base) && history != []
  {
    var before := Replay(base, history[..|history| - 1]);
    Succeeds(AfterSweep(before, history[|history| - 1]), history[|history| - 1])
  }

  /**
   * The store a process returns is one that was committed after it began; an update's has its own
   * transaction last, and that transaction succeeded.
   */
  ghost predicate Witnessed(base: StoreState, history: seq<Job>, job: Job, store: StoreState, since: nat)
    requires Good(base)
  {
    exists n: nat :: WitnessedAt(base, history, job, store, since, n)
  }

  ghost predicate WitnessedAt(base: StoreState, history: seq<Job>, job: Job, store: StoreState, since: nat, n: nat)
    requires Good(base)
  {
    && since <= n <= |history| && store == Replay(base, history[..n])
    && (job.UpdateJob? ==> n > since && history[n - 1] == job && LastSucceeds(base, history[..n]))
  }

  /** The process knows whether its operation is refused on the store in the file. */
  ghost predicate IsRefusal(file: StoreState, me: Process)
    requires Good(file)
  {
    me.refused <==> me.job.UpdateJob? && !Succeeds(AfterSweep(file, me.job), me.job)
  }

  /** What a process holding the write lock has in memory, in terms of the store in the file. */
  ghost predicate Holds(file: StoreState, history: seq<Job>, me: Process)
    requires Good(file)
  {
    match me.phase
    case Loaded => me.store == file
    case Swept => me.store == AfterSweep(file, me.job) && (me.dirty <==> ExpiredIds(file.tasks, JobTime(me.job)) != {})
    case Mutated =>
      me.store == AfterMutation(file, me.job) && IsRefusal(file, me) &&
      (!me.dirty && !me.refused ==> me.store == file && me.job.LoadJob?)
    case Writing => me.store == Effect(file, me.job) && IsRefusal(file, me)
    case Written => me.store == Effect(file, me.job) && IsRefusal(file, me) && me.temp == Whole(me.store)
    case Renamed => me.store == file && |history| > me.since && history[|history| - 1] == me.job
    case _ => true
  }

  /** A load that has swept, or found nothing to sweep, holds no expired lease. */
  ghost predicate LoadIsCurrent(me: Process) {
    me.job.LoadJob? ==>
      && (me.phase.Swept? || IsPastMutation(me.phase) ==> ExpiredIds(me.store.tasks, me.job.now) == {})
      && (me.phase.Finished? ==>
            ExpiredIds(me.store.tasks, me.job.peekNow) == {} || ExpiredIds(me.store.tasks, me.job.now) == {})
  }

  ghost predicate ProcessOk(base: StoreState, file: StoreState, history: seq<Job>, me: Process)
    requires Good(base) && Good(file)
  {
    && me.since <= |history| && JobTime(me.job) > 0
    && Holds(file, history, me)
    && (me.phase.Renamed? && !me.refused && me.job.UpdateJob? ==> LastSucceeds(base, history))
    && LoadIsCurrent(me)
    && (!IsPastMutation(me.phase) && !HasEnded(me.phase) ==> !me.refused)
    && (me.phase.ReadLocked? || me.phase.Peeked? || me.phase.Deciding? ==> me.job.LoadJob?)
    && (me.phase.Peeked? || me.phase.Deciding? || me.phase.Finished? ==>
        Witnessed(base, history, me.job, me.store, me.since))
  }

  ghost predicate WorldOk(base: StoreState, w: World) {
    && Good(base)
    && w.file != Torn && StoreOf(w.file) == Replay(base, w.history)
    && LocksHeld(w)
    && forall p :: p in w.procs ==> ProcessOk(base, Replay(base, w.history), w.history, w.procs[p])
  }

  // ----- every move keeps the invariant -----

  /** The lock is held after a move of `p` as before, but for `p`, which holds what its phase says. */
  lemma LocksFollow(w: World, w': World, p: nat)
    requires LocksHeld(w) && p in w.procs && p in w'.procs && w'.procs == w.procs[p := w'.procs[p]]
    requires w'.readers == w.readers - {p} + (if HoldsShared(w'.procs[p].phase) then {p} else {})
    requires w'.writer == if HoldsExclusive(w'.procs[p].phase) then Some(p)
                          else if w.writer == Some(p) then None else w.writer
    requires HoldsExclusive(w'.procs[p].phase) && w.writer != Some(p) ==> w.writer == None && w.readers == {}
    requires HoldsShared(w'.procs[p].phase) ==> w.writer == None
    ensures LocksHeld(w')
  {
  }

  lemma HoldersKnown(w: World, p: nat)
    requires LocksHeld(w) && p in w.procs
    ensures HoldsExclusive(w.procs[p].phase) <==> w.writer == Some(p)
    ensures HoldsShared(w.procs[p].phase) <==> p in w.readers
    ensures w.writer.Some? ==> w.readers == {}
  {
  }

  lemma ReadMoveLocks(w: World, p: nat, move: Move)
    requires LocksHeld(w) && p in w.procs
    ensures LocksHeld(ReadMove(w, p, w.procs[p], move))
  {
    hide ExpiredIds, LocksHeld;
    HoldersKnown(w, p);
    if ReadMove(w, p, w.procs[p], move) != w {
      LocksFollow(w, ReadMove(w, p, w.procs[p], move), p);
    }
  }

  lemma StopLocks(w: World, p: nat, move: Move)
    requires LocksHeld(w) && p in w.procs
    ensures LocksHeld(Stop(w, p, w.procs[p], move))
  {
  }

  lemma WorkMovePhase(me: Process, move: Move)
    requires Good(me.store)
    ensures HoldsExclusive(WorkMove(me, move).phase) == HoldsExclusive(me.phase)
    ensures HoldsShared(WorkMove(me, move).phase) == HoldsShared(me.phase)
  {
    hide Next, Good, Perform, AfterSweep, ExpiredIds, Succeeds;
  }

  lemma WriteMoveLocks(w: World, p: nat, move: Move)
    requires LocksHeld(w) && p in w.procs
    ensures LocksHeld(WriteMove(w, p, w.procs[p], move))
  {
    hide Next, Good, Perform, AfterSweep, ExpiredIds, Succeeds, WorkMove, LocksHeld;
    var me := w.procs[p];
    HoldersKnown(w, p);
    if Good(me.store) {
      WorkMovePhase(me, move);
    }
    if WriteMove(w, p, me, move) != w {
      LocksFollow(w, WriteMove(w, p, me, move), p);
    }
  }

  lemma LocksAfter(w: World, p: nat, move: Move)
    requires LocksHeld(w)
    ensures LocksHeld(Do(w, p, move))
  {
    hide Next, Good, Perform, WriteMove, ReadMove, Stop;
    if p in w.procs {
      ReadMoveLocks(w, p, move);
      StopLocks(w, p, move);
      WriteMoveLocks(w, p, move);
    }
  }

  lemma SweepStep(s: StoreState, now: nat)
    requires Good(s) && now > 0
    ensures Next(s, Step(SweepLeases, now)) == Sweep(s, now)
  {
  }

  lemma StampStep(s: StoreState, now: nat)
    requires Good(s) && now > 0
    ensures Next(s, Step(StampStore, now)) == Stamped(s, now)
  {
  }

  lemma SweptNothing(s: StoreState, job: Job)
    requires Good(s) && ExpiredIds(s.tasks, JobTime(job)) == {}
    ensures AfterSweep(s, job) == s
  {
    NothingToSweep(s, JobTime(job));
  }

  lemma {:induction false} WitnessNow(base: StoreState, history: seq<Job>, job: Job, store: StoreState, since: nat)
    requires Good(base) && since <= |history| && store == Replay(base, history)
    requires job.UpdateJob? ==> |history| > since && history[|history| - 1] == job && LastSucceeds(base, history)
    ensures Witnessed(base, history, job, store, since)
  {
    hide Good, Effect;
    assert history[..|history|] == history;
    assert WitnessedAt(base, history, job, store, since, |history|);
  }

  /** A process at a point where it holds nothing of the file yet, or nothing any more. */
  lemma {:induction false} IdleOk(base: StoreState, file: StoreState, history: seq<Job>, me: Process, phase: Phase)
    requires Good(base) && Good(file) && ProcessOk(base, file, history, me)
    requires phase == Failed || (phase == WriteLocked && (me.phase.Started? || me.phase.Relocking?))
             || (phase == ReadLocked && me.phase.Started? && me.job.LoadJob?)
             || (phase == Deciding && me.phase.Peeked?) || (phase == Relocking && me.phase.Deciding?)
    ensures ProcessOk(base, file, history, me.(phase := phase))
    ensures ProcessOk(base, file, history, me.(phase := phase, temp := Missing))
  {
    hide Good, AfterSweep, AfterMutation, Effect, Replay, Witnessed, LastSucceeds, Succeeds, IsRefusal, ExpiredIds;
  }

  lemma {:induction false} PeekedOk(base: StoreState, history: seq<Job>, me: Process)
    requires Good(base) && ProcessOk(base, Replay(base, history), history, me) && me.phase.ReadLocked?
    ensures ProcessOk(base, Replay(base, history), history, me.(phase := Peeked, store := Replay(base, history)))
  {
    hide Good, AfterSweep, AfterMutation, Effect, Replay, Witnessed, LastSucceeds, Succeeds, IsRefusal, ExpiredIds;
    WitnessNow(base, history, me.job, Replay(base, history), me.since);
  }

  lemma {:induction false} LoadedOk(base: StoreState, file: StoreState, history: seq<Job>, me: Process)
    requires Good(base) && Good(file) && ProcessOk(base, file, history, me) && me.phase.WriteLocked?
    ensures ProcessOk(base, file, history, me.(phase := Loaded, store := file))
  {
    hide Good, AfterSweep, AfterMutation, Effect, Replay, Witnessed, LastSucceeds, Succeeds, IsRefusal, ExpiredIds;
  }

  lemma {:induction false} DecidedOk(base: StoreState, file: StoreState, history: seq<Job>, me: Process)
    requires Good(base) && Good(file) && ProcessOk(base, file, history, me) && me.phase.Deciding?
    requires ExpiredIds(me.store.tasks, me.job.peekNow) == {}
    ensures ProcessOk(base, file, history, me.(phase := Finished))
  {
    hide Good, AfterSweep, AfterMutation, Effect, Replay, Witnessed, LastSucceeds, Succeeds, IsRefusal, ExpiredIds;
  }

  lemma {:induction false} UnlockedOk(base: StoreState, history: seq<Job>, me: Process)
    requires Good(base) && ProcessOk(base, Replay(base, history), history, me)
    requires me.phase.Renamed? || (me.phase.Mutated? && !me.dirty)
    ensures ProcessOk(base, Replay(base, history), history, me.(phase := if me.refused then Refused else Finished))
  {
    hide Good, AfterSweep, AfterMutation, Effect, Replay, Witnessed, LastSucceeds, Succeeds, IsRefusal, ExpiredIds;
    if !me.refused {
      WitnessNow(base, history, me.job, Replay(base, history), me.since);
    }
  }

  lemma {:induction false} ReadMoveOk(base: StoreState, w: World, p: nat, move: Move)
    requires WorldOk(base, w) && p in w.procs
    ensures var procs := ReadMove(w, p, w.procs[p], move).procs;
            p in procs && ProcessOk(base, Replay(base, w.history), w.history, procs[p])
  {
    hide Good, Replay, Witnessed, LocksHeld, ProcessOk, ExpiredIds;
    var me, file := w.procs[p], Replay(base, w.history);
    assert ProcessOk(base, file, w.history, me);
    match me.phase
    case Started =>
      if me.job.LoadJob? {
        IdleOk(base, file, w.history, me, ReadLocked);
      }
    case ReadLocked => PeekedOk(base, w.history, me);
    case Peeked => IdleOk(base, file, w.history, me, Deciding);
    case Deciding =>
      IdleOk(base, file, w.history, me, Relocking);
      if me.job.LoadJob? && ExpiredIds(me.store.tasks, me.job.peekNow) == {} {
        DecidedOk(base, file, w.history, me);
      }
    case _ =>
  }

  /** Working on the store in memory follows the transaction step by step. */
  lemma {:induction false} WorkMoveHolds(file: StoreState, history: seq<Job>, me: Process, move: Move)
    requires Good(file) && Good(me.store) && Holds(file, history, me)
    requires !IsPastMutation(me.phase) && !HasEnded(me.phase) ==> !me.refused
    ensures Holds(file, history, WorkMove(me, move))
  {
    hide Next, Good, Perform, AfterSweep, Succeeds;
    if move.Mutate? && me.phase.Swept? && !me.dirty {
      SweptNothing(file, me.job);
    }
  }

  lemma LoadStaysCurrent(file: StoreState, history: seq<Job>, me: Process, move: Move)
    requires Good(file) && Good(me.store) && Holds(file, history, me) && LoadIsCurrent(me) && me.job.now > 0
    ensures LoadIsCurrent(WorkMove(me, move))
  {
    hide Good, Perform, Next, PerformAll, Succeeds, Sweep, AfterMutation, Effect, IsRefusal, ExpiredIds;
    if me.job.LoadJob? {
      SweepStep(me.store, me.job.now);
      SweepIdempotent(me.store, me.job.now, me.job.now);
      StampStep(me.store, me.job.now);
    }
  }

  lemma {:induction false} WorkMoveOk(base: StoreState, file: StoreState, history: seq<Job>, me: Process, move: Move)
    requires Good(base) && Good(file) && Good(me.store) && ProcessOk(base, file, history, me)
    ensures ProcessOk(base, file, history, WorkMove(me, move))
  {
    hide Next, Good, Perform, PerformAll, AfterSweep, AfterMutation, Effect, Holds, Witnessed, Succeeds, LoadIsCurrent;
    WorkMoveHolds(file, history, me, move);
    LoadStaysCurrent(file, history, me, move);
  }

  lemma {:induction false} WriteMoveOk(base: StoreState, w: World, p: nat, move: Move)
    requires WorldOk(base, w) && p in w.procs && !move.Rename?
    ensures var procs := WriteMove(w, p, w.procs[p], move).procs;
            p in procs && ProcessOk(base, Replay(base, w.history), w.history, procs[p])
  {
    hide Good, Replay, Witnessed, LocksHeld, WorkMove, ProcessOk;
    var me, file := w.procs[p], Replay(base, w.history);
    assert ProcessOk(base, file, w.history, me);
    if Good(me.store) {
      WorkMoveOk(base, file, w.history, me, move);
    }
    match me.phase
    case Started => IdleOk(base, file, w.history, me, WriteLocked);
    case Relocking => IdleOk(base, file, w.history, me, WriteLocked);
    case WriteLocked => LoadedOk(base, file, w.history, me);
    case Mutated =>
      if !me.dirty {
        UnlockedOk(base, w.history, me);
      }
    case Renamed => UnlockedOk(base, w.history, me);
    case _ =>
  }

  /** What a move leaves alone: other processes always, the file and the history unless it is a rename. */
  lemma MoveTouches(w: World, p: nat, move: Move)
    ensures var w' := Do(w, p, move);
            && (forall q :: q != p ==>
                  (q in w'.procs <==> q in w.procs) && (q in w.procs ==> w'.procs[q] == w.procs[q]))
            && (!move.Rename? ==> w'.file == w.file && w'.history == w.history)
            && (w' == w || move.Begin? || p in w.procs)
  {
    hide Next, Good, Perform, WorkMove, ExpiredIds;
  }

  lemma {:induction false} StopOk(base: StoreState, w: World, p: nat, move: Move)
    requires WorldOk(base, w) && p in w.procs
    ensures var procs := Stop(w, p, w.procs[p], move).procs;
            p in procs ==> ProcessOk(base, Replay(base, w.history), w.history, procs[p])
  {
    hide Good, Replay, LocksHeld, ProcessOk;
    var me, file := w.procs[p], Replay(base, w.history);
    assert ProcessOk(base, file, w.history, me);
    IdleOk(base, file, w.history, me, Failed);
  }

  lemma {:induction false} OwnMoveOk(base: StoreState, w: World, p: nat, move: Move)
    requires WorldOk(base, w) && !move.Rename?
    ensures p in Do(w, p, move).procs ==> ProcessOk(base, Replay(base, w.history), w.history, Do(w, p, move).procs[p])
  {
    hide Next, Good, Perform, Replay, Witnessed, LocksHeld;
    hide ReadMove, WriteMove, Stop, Effect, AfterSweep, AfterMutation;
    if p in w.procs {
      ReadMoveOk(base, w, p, move);
      WriteMoveOk(base, w, p, move);
      StopOk(base, w, p, move);
    }
  }

  lemma {:induction false} LongerHistory(base: StoreState, history: seq<Job>, job: Job, me: Process)
    requires Good(base) && ProcessOk(base, Replay(base, history), history, me) && !HoldsExclusive(me.phase)
    ensures ProcessOk(base, Replay(base, history + [job]), history + [job], me)
  {
    hide Next, Good, Perform, Replay, Effect, AfterSweep, AfterMutation;
    if n: nat :| WitnessedAt(base, history, me.job, me.store, me.since, n) {
      assert (history + [job])[..n] == history[..n];
      assert WitnessedAt(base, history + [job], me.job, me.store, me.since, n);
    }
  }

  lemma RenameMoves(w: World, p: nat)
    requires p in w.procs && w.procs[p].phase.Written?
    ensures var w', me := Do(w, p, Rename), w.procs[p];
            w'.file == me.temp && w'.history == w.history + [me.job]
  {
    hide Next, Good, Perform;
  }

  /** The commit: the file becomes the effect of the transaction on what the file holds at that moment. */
  lemma {:induction false} RenameCommits(base: StoreState, w: World, p: nat)
    requires WorldOk(base, w) && p in w.procs && w.procs[p].phase.Written?
    ensures Good(StoreOf(w.file))
    ensures var w', job := Do(w, p, Rename), w.procs[p].job;
            && w'.file == Whole(Effect(StoreOf(w.file), job)) && w'.history == w.history + [job]
            && StoreOf(w'.file) == Replay(base, w'.history)
  {
    hide Next, Good, Perform, Do, Effect, LocksHeld, Witnessed, LastSucceeds, Succeeds, AfterSweep, IsRefusal;
    hide LoadIsCurrent;
    RenameMoves(w, p);
    var me := w.procs[p];
    assert ProcessOk(base, Replay(base, w.history), w.history, me);
    var history := w.history + [me.job];
    assert history[..|history| - 1] == w.history;
  }

  lemma {:induction false} RenameOk(base: StoreState, w: World, p: nat)
    requires WorldOk(base, w) && p in w.procs && w.procs[p].phase.Written?
    ensures WorldOk(base, Do(w, p, Rename))
  {
    hide Next, Good, Perform, Effect, Replay, Witnessed, Stop, ReadMove;
    var w', me := Do(w, p, Rename), w.procs[p];
    RenameCommits(base, w, p);
    LocksAfter(w, p, Rename);
    assert ProcessOk(base, Replay(base, w.history), w.history, me);
    forall q | q in w.procs && q != p ensures ProcessOk(base, Replay(base, w'.history), w'.history, w'.procs[q]) {
      assert !HoldsExclusive(w.procs[q].phase) by {
        assert HoldsExclusive(me.phase);
      }
      LongerHistory(base, w.history, me.job, w.procs[q]);
    }
  }

  lemma {:induction false} MoveOk(base: StoreState, w: World, p: nat, move: Move)
    requires WorldOk(base, w)
    ensures WorldOk(base, Do(w, p, move))
  {
    hide Next, Good, Perform, Effect, Replay, Do, LocksHeld, ProcessOk;
    MoveTouches(w, p, move);
    if move.Rename? {
      if p in w.procs && w.procs[p].phase.Written? {
        RenameOk(base, w, p);
      } else {
        IdleRename(w, p);
      }
    } else {
      LocksAfter(w, p, move);
      OwnMoveOk(base, w, p, move);
    }
  }

  lemma IdleRename(w: World, p: nat)
    requires p !in w.procs || !w.procs[p].phase.Written?
    ensures Do(w, p, Rename) == w
  {
  }

  // ----- what holds of every execution -----

  /** No process yet, and the store `base` in the file (or no file, which reads as the empty store). */
  ghost predicate AtRest(base: StoreState, w: World) {
    && Good(base) && (w.file == Whole(base) || (w.file == Missing && base == EMPTY_STORE))
    && w.writer == None && w.readers == {} && w.procs == map[] && w.history == []
  }

  lemma {:induction false} PlayOk(base: StoreState, w: World, trace: seq<(nat, Move)>)
    requires WorldOk(base, w)
    ensures WorldOk(base, Play(w, trace))
  {
    hide Next, Good, Perform, Do, LocksHeld, ProcessOk, Effect;
    if trace != [] {
      var init, last := trace[..|trace| - 1], trace[|trace| - 1];
      PlayOk(base, w, init);
      MoveOk(base, Play(w, init), last.0, last.1);
    }
  }

  lemma AtRestOk(base: StoreState, w: World)
    requires AtRest(base, w)
    ensures WorldOk(base, w)
  {
    hide Good, Next, Perform, Effect;
  }

  /**
   * However the processes interleave and wherever they crash, the file is never half-written and
   * holds exactly the committed transactions applied one after the other in the order of their
   * renames, a store that keeps the invariant; and a process holding the write lock is alone.
   */
  lemma {:induction false} FileIsTheCommittedHistory(base: StoreState, start: World, trace: seq<(nat, Move)>)
    requires AtRest(base, start)
    ensures var w := Play(start, trace);
            && w.file != Torn && StoreOf(w.file) == Replay(base, w.history) && Good(StoreOf(w.file))
            && forall p, q :: p in w.procs && q in w.procs && p != q && HoldsExclusive(w.procs[p].phase) ==>
                 !HoldsExclusive(w.procs[q].phase) && !HoldsShared(w.procs[q].phase)
  {
    hide Next, Good, Perform, Do, ProcessOk, Effect, Replay, Play;
    AtRestOk(base, start);
    PlayOk(base, start, trace);
  }

  /**
   * No update is lost: whatever a process commits it applies to everything committed before its
   * rename. This covers `LoadCurrent`, which decided on an unlocked snapshot that may be stale.
   */
  lemma {:induction false} CommitsApplyToTheLatest(base: StoreState, start: World, trace: seq<(nat, Move)>, p: nat)
    requires AtRest(base, start)
    requires p in Play(start, trace).procs && Play(start, trace).procs[p].phase.Written?
    ensures var w := Play(start, trace);
            && Good(StoreOf(w.file))
            && Do(w, p, Rename).file == Whole(Effect(StoreOf(w.file), w.procs[p].job))
            && Do(w, p, Rename).history == w.history + [w.procs[p].job]
  {
    hide Next, Good, Perform, Do, ProcessOk, Effect, Replay, Play;
    AtRestOk(base, start);
    PlayOk(base, start, trace);
    RenameCommits(base, Play(start, trace), p);
  }

  /**
   * No half-written or stale read: a process returns a store that was committed after it began, and
   * a load returns one without an expired lease at its first or its second reading of the clock.
   */
  lemma {:induction false} ReturnedStoresWereCommitted(base: StoreState, start: World, trace: seq<(nat, Move)>, p: nat)
    requires AtRest(base, start)
    requires p in Play(start, trace).procs && Play(start, trace).procs[p].phase.Finished?
    ensures var w := Play(start, trace); var me := w.procs[p];
            exists n: nat :: me.since <= n <= |w.history| && me.store == Replay(base, w.history[..n])
                             && (me.job.UpdateJob? ==>
                                   n > me.since && w.history[n - 1] == me.job && LastSucceeds(base, w.history[..n]))
    ensures var me := Play(start, trace).procs[p];
            me.job.LoadJob? ==>
              ExpiredIds(me.store.tasks, me.job.peekNow) == {} || ExpiredIds(me.store.tasks, me.job.now) == {}
  {
    hide Next, Good, Perform, Do, Effect, Replay, Play;
    AtRestOk(base, start);
    PlayOk(base, start, trace);
    var w := Play(start, trace);
    var n: nat :| WitnessedAt(base, w.history, w.procs[p].job, w.procs[p].store, w.procs[p].since, n);
  }

  // ----- committed histories are runs -----

  /** The steps of a committed transaction on this store: the sweep, the operations taken, the write stamp. */
  ghost function StepsOf(s: StoreState, job: Job): seq<Step>
    requires Good(s)
  {
    var middle := if job.UpdateJob? then Taken(AfterSweep(s, job), job.steps) else [];
    [Step(SweepLeases, job.now)] + middle + [Step(StampStore, job.now)]
  }

  ghost function AllSteps(base: StoreState, history: seq<Job>): seq<Step>
    requires Good(base)
  {
    if history == [] then []
    else
      var init := history[..|history| - 1];
      AllSteps(base, init) + StepsOf(Replay(base, init), history[|history| - 1])
  }

  lemma {:induction false} RunOfOne(s: StoreState, step: Step)
    requires Good(s)
    ensures Run(s, [step]) == Next(s, step)
  {
    hide Good, Next, Perform;
    assert Run(s, []) == s && [step][..0] == [];
  }

  lemma {:induction false} EffectIsARun(s: StoreState, job: Job)
    requires Good(s)
    ensures Effect(s, job) == Run(s, StepsOf(s, job))
  {
    hide Good, Next, Perform, Run, PerformAll, Taken;
    var sweep, stamp := Step(SweepLeases, job.now), Step(StampStore, job.now);
    var middle := if job.UpdateJob? then Taken(AfterSweep(s, job), job.steps) else [];
    RunSplit(s, [sweep] + middle, [stamp]);
    RunSplit(s, [sweep], middle);
    RunOfOne(s, sweep);
    RunOfNone(AfterSweep(s, job));
    if job.UpdateJob? {
      PerformAllIsARun(AfterSweep(s, job), job.steps);
    }
    RunOfOne(AfterMutation(s, job), stamp);
  }

  lemma RunOfNone(s: StoreState)
    requires Good(s)
    ensures Run(s, []) == s
  {
  }

  /** So what is proved of every run is proved of the file under any concurrent execution. */
  lemma {:induction false} HistoryIsARun(base: StoreState, history: seq<Job>)
    requires Good(base)
    ensures Replay(base, history) == Run(base, AllSteps(base, history))
  {
    hide Good, Next, Perform, Run, Effect, StepsOf;
    if history == [] {
      RunOfNone(base);
    } else {
      var init, last := history[..|history| - 1], history[|history| - 1];
      HistoryIsARun(base, init);
      EffectIsARun(Replay(base, init), last);
      RunSplit(base, AllSteps(base, init), StepsOf(Replay(base, init), last));
    }
  }

  /**
   * A committed update is the transaction `TransactAll` describes; one that commits nothing leaves
   * the file as it is.
   */
  lemma {:induction false} EffectIsTheTransaction(s: StoreState, steps: seq<Step>, now: nat)
    requires Good(s) && now > 0
    ensures var job, o := UpdateJob(steps, now), TransactAll(s, steps, OneStep(), now);
            && (o.error.None? <==> Succeeds(AfterSweep(s, job), job))
            && (if ExpiredIds(s.tasks, now) != {} || Succeeds(AfterSweep(s, job), job)
                then Effect(s, job) == o.store && o.store.lastModified == now else o.store == s)
  {
    hide Good, Perform, Sweep, InTurn, OneStep;
    var job := UpdateJob(steps, now);
    SweepStep(s, now);
    StampStep(AfterMutation(s, job), now);
  }

  /** With one step it is the transaction of a single operation. */
  lemma {:induction false} OneStepTransaction(s: StoreState, step: Step)
    requires Good(s) && step.now > 0 && Admitted(AfterSweep(s, UpdateJob([step], step.now)), step)
    ensures KeyedById(s.tasks)
    ensures TransactAll(s, [step], OneStep(), step.now) == Transact(s, step)
  {
    hide Perform, Sweep, Good, Next;
    GoodIsKeyed(s);
    SweepStep(s, step.now);
    var swept, op := Sweep(s, step.now), OneStep();
    assert [step][..0] == [];
    assert InTurn(swept, [step], op) == op(swept, step);
  }

  /** On the program's stores the operation on this item is that step. */
  ghost predicate IsStep<T(!new)>(op: (StoreState, T) -> Outcome, item: T, step: Step) {
    forall s :: Good(s) ==> op(s, item) == OneStep()(s, step)
  }

  lemma {:induction false} InTurnIsSteps<T(!new)>(s: StoreState, items: seq<T>, op: (StoreState, T) -> Outcome,
                                                  steps: seq<Step>)
    requires Good(s) && |steps| == |items| && forall i :: 0 <= i < |items| ==> IsStep(op, items[i], steps[i])
    ensures InTurn(s, items, op) == PerformAll(s, steps)
  {
    hide Good, OneStep;
    if items != [] {
      var n := |items| - 1;
      InTurnIsSteps(s, items[..n], op, steps[..n]);
      PerformAllIsARun(s, steps[..n]);
      assert Good(PerformAll(s, steps[..n]).store);
      assert IsStep(op, items[n], steps[n]);
    }
  }

  /** The batch of `todo done` is an update job: its transaction is that of the completions as steps. */
  lemma DoneIsAJob(s: StoreState, ids: seq<nat>, actor: string, resolver: Resolver, now: nat)
    requires Good(s) && now > 0
    ensures var steps := seq(|ids|, i requires 0 <= i < |ids| => Step(CompleteTask(ids[i], actor, resolver), now));
            TransactAll(s, ids, Completion(actor, resolver, now), now) == TransactAll(s, steps, OneStep(), now)
  {
    hide Good, Sweep;
    var steps := seq(|ids|, i requires 0 <= i < |ids| => Step(CompleteTask(ids[i], actor, resolver), now));
    forall i | 0 <= i < |ids| ensures IsStep(Completion(actor, resolver, now), ids[i], steps[i]) {
      GoodIsKeyedAlways();
    }
    SweepStep(s, now);
    InTurnIsSteps(Sweep(s, now), ids, Completion(actor, resolver, now), steps);
  }

  lemma GoodIsKeyedAlways()
    ensures forall s :: Good(s) ==> KeyedById(s.tasks)
  {
    forall s | Good(s) ensures KeyedById(s.tasks) {
      GoodIsKeyed(s);
    }
  }

  /** So is the batch of `todo release`. */
  lemma ReleaseIsAJob(s: StoreState, ids: seq<nat>, actor: string, failure: string, now: nat)
    requires Good(s) && now > 0
    ensures var steps := seq(|ids|, i requires 0 <= i < |ids| => Step(ReleaseTask(ids[i], actor, failure), now));
            TransactAll(s, ids, Releasing(actor, failure, now), now) == TransactAll(s, steps, OneStep(), now)
  {
    hide Good, Sweep;
    var steps := seq(|ids|, i requires 0 <= i < |ids| => Step(ReleaseTask(ids[i], actor, failure), now));
    forall i | 0 <= i < |ids| ensures IsStep(Releasing(actor, failure, now), ids[i], steps[i]) {
      GoodIsKeyedAlways();
    }
    SweepStep(s, now);
    InTurnIsSteps(Sweep(s, now), ids, Releasing(actor, failure, now), steps);
  }

  lemma {:induction false} LoadsAlone(w: World, p: nat, steps: seq<Step>, now: nat)
    requires p !in w.procs && w.writer == None && w.readers == {} && now > 0 && w.file != Torn
    ensures var job := UpdateJob(steps, now); var loaded := Do(Do(Do(w, p, Begin(job)), p, LockExclusive), p, Load);
            && loaded.file == w.file && loaded.history == w.history && loaded.readers == {} && p in loaded.procs
            && loaded.procs[p] == Process(job, Loaded, StoreOf(w.file), false, false, Missing, |w.history|)
  {
    hide ReadMove, Stop, Good, WorkMove;
  }

  lemma {:induction false} LoadsAndMutates(w: World, p: nat, steps: seq<Step>, now: nat)
    requires p !in w.procs && w.writer == None && w.readers == {} && now > 0
    requires w.file != Torn && Good(StoreOf(w.file))
    requires ExpiredIds(StoreOf(w.file).tasks, now) != {} ||
             Succeeds(AfterSweep(StoreOf(w.file), UpdateJob(steps, now)), UpdateJob(steps, now))
    ensures var job := UpdateJob(steps, now);
            var loaded := Do(Do(Do(w, p, Begin(job)), p, LockExclusive), p, Load);
            var mutated := Do(Do(loaded, p, SweepExpired), p, Mutate);
            && mutated.history == w.history && p in mutated.procs
            && mutated.procs[p] == Process(job, Mutated, AfterMutation(StoreOf(w.file), job), true,
                                            !Succeeds(AfterSweep(StoreOf(w.file), job), job), Missing, |w.history|)
  {
    hide Next, Good, Perform, PerformAll, AfterSweep, Succeeds, ReadMove, Stop;
    LoadsAlone(w, p, steps, now);
  }

  lemma {:induction false} WritesAndRenames(w: World, p: nat)
    requires p in w.procs && w.procs[p].phase.Mutated? && w.procs[p].dirty && Good(w.procs[p].store)
    ensures var me := w.procs[p];
            var written := Do(Do(w, p, StartWrite), p, FinishWrite);
            var done := Do(Do(written, p, Rename), p, Unlock);
            var store := Next(me.store, Step(StampStore, JobTime(me.job)));
            && done.file == Whole(store) && done.history == w.history + [me.job] && done.writer == None
            && done.readers == w.readers
            && p in done.procs && done.procs[p].store == store
            && done.procs[p].phase == (if me.refused then Refused else Finished)
  {
    hide Next, Good, Perform, PerformAll, AfterSweep, Succeeds, ReadMove, Stop;
    var me := w.procs[p];
    var store := Next(me.store, Step(StampStore, JobTime(me.job)));
    var written := Do(Do(w, p, StartWrite), p, FinishWrite);
    assert written.history == w.history && p in written.procs;
    assert written.procs[p] == me.(phase := Written, store := store, temp := Whole(store));
  }

  /**
   * Left alone with a free lock, an update that succeeds, or has leases to sweep, runs to its commit;
   * it returns what it wrote if its operation succeeded and the error otherwise.
   */
  lemma {:induction false} UndisturbedUpdateCommits(w: World, p: nat, steps: seq<Step>, now: nat)
    requires p !in w.procs && w.writer == None && w.readers == {} && now > 0
    requires w.file != Torn && Good(StoreOf(w.file))
    requires ExpiredIds(StoreOf(w.file).tasks, now) != {} ||
             Succeeds(AfterSweep(StoreOf(w.file), UpdateJob(steps, now)), UpdateJob(steps, now))
    ensures var job := UpdateJob(steps, now);
            var loaded := Do(Do(Do(w, p, Begin(job)), p, LockExclusive), p, Load);
            var mutated := Do(Do(loaded, p, SweepExpired), p, Mutate);
            var written := Do(Do(mutated, p, StartWrite), p, FinishWrite);
            var done := Do(Do(written, p, Rename), p, Unlock);
            && done.file == Whole(Effect(StoreOf(w.file), job)) && done.history == w.history + [job]
            && done.writer == None
            && p in done.procs && done.procs[p].store == Effect(StoreOf(w.file), job)
            && done.procs[p].phase == (if Succeeds(AfterSweep(StoreOf(w.file), job), job) then Finished else Refused)
  {
    hide Next, Good, Perform, PerformAll, AfterSweep, AfterMutation, Succeeds, Do;
    var job := UpdateJob(steps, now);
    LoadsAndMutates(w, p, steps, now);
    var loaded := Do(Do(Do(w, p, Begin(job)), p, LockExclusive), p, Load);
    WritesAndRenames(Do(Do(loaded, p, SweepExpired), p, Mutate), p);
  }

  /** Left alone with a free lock, an update that is refused with nothing swept ends so, and the file is as it was. */
  lemma {:induction false} UndisturbedRefusalLeavesFile(w: World, p: nat, steps: seq<Step>, now: nat)
    requires p !in w.procs && w.writer == None && w.readers == {} && now > 0
    requires w.file != Torn && Good(StoreOf(w.file)) && ExpiredIds(StoreOf(w.file).tasks, now) == {}
    requires !Succeeds(AfterSweep(StoreOf(w.file), UpdateJob(steps, now)), UpdateJob(steps, now))
    ensures var loaded := Do(Do(Do(w, p, Begin(UpdateJob(steps, now))), p, LockExclusive), p, Load);
            var done := Do(Do(Do(loaded, p, SweepExpired), p, Mutate), p, Unlock);
            && done.file == w.file && done.history == w.history && done.writer == None && done.readers == {}
            && p in done.procs && done.procs[p].phase == Refused
  {
    hide Next, Good, Perform, PerformAll, AfterSweep, Succeeds, ExpiredIds, ReadMove, Stop, Do;
    LoadsAlone(w, p, steps, now);
    RefusedEnds(Do(Do(Do(w, p, Begin(UpdateJob(steps, now))), p, LockExclusive), p, Load), p);
  }

  lemma RefusedEnds(loaded: World, p: nat)
    requires p in loaded.procs && loaded.readers == {}
    requires var me := loaded.procs[p];
             && me.phase.Loaded? && me.job.UpdateJob? && Good(me.store) && ExpiredIds(me.store.tasks, me.job.now) == {}
             && !Succeeds(AfterSweep(me.store, me.job), me.job)
    ensures var done := Do(Do(Do(loaded, p, SweepExpired), p, Mutate), p, Unlock);
            && done.file == loaded.file && done.history == loaded.history && done.writer == None && done.readers == {}
            && p in done.procs && done.procs[p].phase == Refused
  {
    hide Next, Good, Perform, PerformAll, AfterSweep, Succeeds, ExpiredIds, ReadMove, Stop;
    var swept := Do(loaded, p, SweepExpired);
    assert p in swept.procs && swept.procs[p].phase == Swept && !swept.procs[p].dirty;
    assert swept.procs[p].store == AfterSweep(loaded.procs[p].store, loaded.procs[p].job);
  }

  // ----- loads that are left alone -----

  /** The unlocked half of a load: it ends with the file's store, or goes on to take the write lock. */
  ghost function AfterPeek(w: World, p: nat, job: Job): World {
    Do(Do(Do(Do(Do(w, p, Begin(job)), p, LockShared), p, Peek), p, UnlockShared), p, Decide)
  }

  lemma {:induction false} PeekDecides(w: World, p: nat, peekNow: nat, now: nat)
    requires p !in w.procs && w.writer == None && w.readers == {} && now > 0 && w.file != Torn
    ensures var w', file, job := AfterPeek(w, p, LoadJob(peekNow, now)), StoreOf(w.file), LoadJob(peekNow, now);
            && w'.file == w.file && w'.history == w.history && w'.writer == None && w'.readers == {}
            && p in w'.procs
            && w'.procs[p] == Process(job, if ExpiredIds(file.tasks, peekNow) == {} then Finished else Relocking, file,
                                      false, false, Missing, |w.history|)
  {
    hide ExpiredIds, WriteMove, Stop;
    var job := LoadJob(peekNow, now);
    var peeked := Do(Do(Do(w, p, Begin(job)), p, LockShared), p, Peek);
    assert p in peeked.procs && peeked.readers == {p};
    assert peeked.procs[p] == Process(job, Peeked, StoreOf(w.file), false, false, Missing, |w.history|);
  }

  /** The locked half, up to the point where it is clear whether anything has to be written. */
  ghost function AfterRelock(w: World, p: nat): World {
    Do(Do(Do(Do(w, p, LockExclusive), p, Load), p, SweepExpired), p, Mutate)
  }

  lemma {:induction false} RelockSweeps(w: World, p: nat)
    requires p in w.procs && w.procs[p].phase.Relocking? && w.procs[p].job.LoadJob? && !w.procs[p].refused
    requires w.writer == None && w.readers == {} && w.procs[p].job.now > 0
    requires w.file != Torn && Good(StoreOf(w.file))
    ensures var w', file, me := AfterRelock(w, p), StoreOf(w.file), w.procs[p];
            && w'.file == w.file && w'.history == w.history && w'.readers == {} && p in w'.procs
            && w'.procs[p] == me.(phase := Mutated, store := Sweep(file, me.job.now),
                                  dirty := ExpiredIds(file.tasks, me.job.now) != {})
  {
    hide Next, Good, Perform, ExpiredIds, Sweep, ReadMove, Stop;
    var file, me := StoreOf(w.file), w.procs[p];
    var loaded := Do(Do(w, p, LockExclusive), p, Load);
    assert p in loaded.procs && loaded.procs[p] == me.(phase := Loaded, store := file);
    SweepStep(file, me.job.now);
  }

  /** The process has ended with this store to return, and the file, the history and the locks are as said. */
  ghost predicate Returned(w: World, p: nat, store: StoreState, file: Content, history: seq<Job>) {
    && p in w.procs && w.procs[p].phase == Finished && w.procs[p].store == store
    && w.file == file && w.history == history && w.writer == None && w.readers == {}
  }

  lemma {:induction false} UnlockClean(w: World, p: nat)
    requires p in w.procs && w.procs[p].phase.Mutated? && !w.procs[p].dirty && !w.procs[p].refused && w.readers == {}
    ensures Returned(Do(w, p, Unlock), p, w.procs[p].store, w.file, w.history)
  {
    hide Next, Good, Perform, WorkMove;
  }

  /**
   * Left alone with a free lock, a load ends with a store to return and no lock held: the file's, if
   * no lease has run out, without a write; otherwise it reclaims the leases that have run out by the
   * time it holds the lock, commits that if there are any, and returns the store it leaves.
   */
  lemma {:induction false} UndisturbedLoadReturns(w: World, p: nat, peekNow: nat, now: nat)
    requires p !in w.procs && w.writer == None && w.readers == {} && now > 0
    requires w.file != Torn && Good(StoreOf(w.file))
    ensures var file, job, peeked := StoreOf(w.file), LoadJob(peekNow, now), AfterPeek(w, p, LoadJob(peekNow, now));
            var swept := AfterRelock(peeked, p);
            var written := Do(Do(Do(swept, p, StartWrite), p, FinishWrite), p, Rename);
            if ExpiredIds(file.tasks, peekNow) == {} then Returned(peeked, p, file, w.file, w.history)
            else if ExpiredIds(file.tasks, now) == {} then Returned(Do(swept, p, Unlock), p, file, w.file, w.history)
            else
              var store := Stamped(Sweep(file, now), now);
              Returned(Do(written, p, Unlock), p, store, Whole(store), w.history + [job])
  {
    hide Next, Good, Perform, ExpiredIds, Sweep, Do;
    var file, job := StoreOf(w.file), LoadJob(peekNow, now);
    PeekDecides(w, p, peekNow, now);
    var peeked := AfterPeek(w, p, job);
    if ExpiredIds(file.tasks, peekNow) != {} {
      RelockSweeps(peeked, p);
      var swept := AfterRelock(peeked, p);
      if ExpiredIds(file.tasks, now) == {} {
        NothingToSweep(file, now);
        UnlockClean(swept, p);
      } else {
        SweepStep(file, now);
        StampStep(Sweep(file, now), now);
        WritesAndRenames(swept, p);
      }
    }
  }

  // ----- crashes and errors -----

  /** Before its rename a process that dies, or fails, leaves the file alone and holds no lock any more. */
  lemma StoppedBeforeCommit(w: World, p: nat)
    requires LocksHeld(w) && p in w.procs && (HoldsExclusive(w.procs[p].phase) || HoldsShared(w.procs[p].phase))
    requires !w.procs[p].phase.Renamed?
    ensures var crashed, failed := Do(w, p, Crash), Do(w, p, Fail);
            && crashed.file == failed.file == w.file && crashed.history == failed.history == w.history
            && p !in crashed.procs && p in failed.procs && failed.procs[p].phase == Failed
            && crashed.writer == failed.writer == (if HoldsExclusive(w.procs[p].phase) then None else w.writer)
            && crashed.readers == failed.readers == w.readers - {p}
  {
    hide WriteMove, ReadMove;
  }
}
