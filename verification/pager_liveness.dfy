/**
 Liveness of the pager under every scheduler: each call takes a bounded number of steps, and it can be
 stranded in exactly one way, namely by asking for a further page after an empty one.
 */
module PagerLiveness {
  import opened Options
  import opened Datums
  import opened ServerChain
  import opened Pager
  import opened PagerInvariant
  import opened PagerDelivery

  /** A call is in progress and no thread can take a step. */
  ghost predicate Blocked(c: seq<Outcome>, s: State) {
    && !s.main.Idle?
    && MainStep(c, s, true).None?
    && forall i: nat, wake: Wake :: WorkStep(c, s, i, wake).None?
  }

  /** Steps of the running threads: neither a new call nor a spurious wake-up. */
  predicate Internal(step: Step) {
    step.Main? || step.Work?
  }

  function WorkerRank(w: Worker): nat {
    match w
    case Asking => 6
    case Locking(_) => 5
    case Checking(_) => 4
    case Sleeping(_) => 3
    case Pushing(_) => 3
    case Releasing => 2
    case Exited => 1
  }

  function WorkersRank(ws: seq<Worker>): nat {
    if ws == [] then 0 else WorkerRank(ws[0]) + WorkersRank(ws[1..])
  }

  function MainRank(m: MainPc, pagesLeft: nat): nat {
    match m
    case Idle => 0
    case Executing => 29 + pagesLeft
    case ExecToken => 28
    case ExecSpawn => 27
    case ExecFlag => 2
    case ExecFetch => 1
    case FetchTop => 34
    case Reading => 1
    case SwitchLock => 33
    case SwitchCheck => 32
    case SwitchSleep => 31
    case SwitchPop => 31
    case SwitchUnlock(_) => 30
    case SwitchHandle(_) => 29
    case SwitchJoin => 28
    case SwitchToken => 27
    case SwitchSpawn => 26
    case CloseFlag => 3
    case CloseJoin => 2
    case CloseReset => 1
  }

  /** An upper bound on the steps left in the current call. */
  function Measure(c: seq<Outcome>, s: State): nat {
    MainRank(s.main, if s.token < |c| then |c| - s.token else 0) + 4 * WorkersRank(s.threads)
  }

  lemma RankOfOne(w: Worker)
    ensures WorkersRank([w]) == WorkerRank(w)
  {
    assert [w][1..] == [];
  }

  lemma RankDecreases(c: seq<Outcome>, s: State, wake: Wake)
    requires Inv(c, s) && s.threads != [] && WorkStep(c, s, 0, wake).Some?
    ensures WorkersRank(WorkStep(c, s, 0, wake).value.threads) < WorkersRank(s.threads)
  {
    hide Data, IsChain, Control;
    var t := WorkStep(c, s, 0, wake).value;
    WorkFrame(c, s, wake);
    assert s.threads == [s.threads[0]] && t.threads == [t.threads[0]];
    RankOfOne(s.threads[0]);
    RankOfOne(t.threads[0]);
  }

  lemma WorkDecreases(c: seq<Outcome>, s: State, wake: Wake)
    requires Inv(c, s) && s.threads != [] && WorkStep(c, s, 0, wake).Some?
    ensures Measure(c, WorkStep(c, s, 0, wake).value) < Measure(c, s)
  {
    hide Data, IsChain, Control, WorkStep, WorkersRank, InFlight;
    WorkFrame(c, s, wake);
    RankDecreases(c, s, wake);
  }

  lemma SpawnRank(s: State)
    requires s.threads == []
    ensures WorkersRank(Spawn(s).threads) == 6
  {
    assert Spawn(s).threads == [Asking];
    RankOfOne(Asking);
  }

  lemma ExecuteDecreases(c: seq<Outcome>, s: State)
    requires Inv(c, s) && InExecute(s.main) && ExecuteStep(c, s).Some?
    ensures Measure(c, ExecuteStep(c, s).value) < Measure(c, s)
  {
    hide Data, InFlight, Spawn;
    if s.main.ExecSpawn? { SpawnRank(s); SpawnMain(s); }
  }

  lemma NoRank()
    ensures WorkersRank([]) == 0
  {
  }

  lemma PopRank(ws: seq<Worker>)
    requires ws != []
    ensures WorkersRank(ws[1..]) < WorkersRank(ws)
  {
  }

  lemma SpawnMain(s: State)
    ensures Spawn(s).main == s.main && Spawn(s).token == s.token
  {
  }

  lemma SwitchDecreases(c: seq<Outcome>, s: State)
    requires SwitchStep(s).Some? && (s.main.SwitchSpawn? ==> s.threads == [])
    ensures Measure(c, SwitchStep(s).value) < Measure(c, s)
  {
    hide Spawn, MutexFree, WorkersRank, SwitchStep;
    if s.main.SwitchSpawn? || s.main.SwitchJoin? || s.main.SwitchToken? {
      RestartDecreases(c, s);
    } else {
      TakeDecreases(c, s);
    }
  }

  lemma TakeDecreases(c: seq<Outcome>, s: State)
    requires SwitchStep(s).Some? && !s.main.SwitchSpawn? && !s.main.SwitchJoin? && !s.main.SwitchToken?
    ensures Measure(c, SwitchStep(s).value) < Measure(c, s)
  {
    hide MutexFree, WorkersRank;
    match s.main
    case SwitchLock =>
    case SwitchCheck =>
    case SwitchPop =>
    case SwitchUnlock(_) =>
    case SwitchHandle(_) =>
    case _ =>
  }

  lemma RestartDecreases(c: seq<Outcome>, s: State)
    requires SwitchStep(s).Some? && (s.main.SwitchSpawn? || s.main.SwitchJoin? || s.main.SwitchToken?)
    requires s.main.SwitchSpawn? ==> s.threads == []
    ensures Measure(c, SwitchStep(s).value) < Measure(c, s)
  {
    hide Spawn, WorkersRank;
    if s.main.SwitchSpawn? {
      SpawnRank(s); SpawnMain(s); NoRank();
    } else if s.main.SwitchJoin? && s.threads != [] {
      PopRank(s.threads);
    }
  }

  lemma FetchDecreases(c: seq<Outcome>, s: State, readable: bool)
    requires FetchStep(s, readable).Some?
    ensures Measure(c, FetchStep(s, readable).value) < Measure(c, s)
  {
    hide WorkersRank;
  }

  lemma CloseDecreases(c: seq<Outcome>, s: State)
    requires CloseStep(s).Some?
    ensures Measure(c, CloseStep(s).value) < Measure(c, s)
  {
    hide WorkersRank;
    if s.threads != [] { PopRank(s.threads); }
  }

  lemma MainDecreases(c: seq<Outcome>, s: State, readable: bool)
    requires Inv(c, s) && MainStep(c, s, readable).Some?
    ensures Measure(c, MainStep(c, s, readable).value) < Measure(c, s)
  {
    hide Data, InFlight, IsChain, ExecuteStep, SwitchStep, FetchStep, CloseStep, Measure, Supplied, Settled, Waiting;
    if InExecute(s.main) {
      ExecuteDecreases(c, s);
    } else if InFetch(s.main) {
      FetchDecreases(c, s, readable);
    } else if InClose(s.main) {
      CloseDecreases(c, s);
    } else {
      SwitchDecreases(c, s);
    }
  }

  lemma StepDecreases(c: seq<Outcome>, s: State, step: Step)
    requires Inv(c, s) && Internal(step) && Next(c, s, step).Some?
    ensures Measure(c, Next(c, s, step).value) < Measure(c, s)
  {
    hide Data, IsChain, Control, Measure, MainStep, WorkStep;
    if step.Main? {
      MainDecreases(c, s, step.readable);
    } else {
      ThreadExists(c, s, step.i, step.wake);
      assert step.i == 0;
      WorkDecreases(c, s, step.wake);
    }
  }

  /** No new call: steps of the running threads and spurious wake-ups. */
  predicate Running(run: seq<Step>) {
    forall i | 0 <= i < |run| :: Internal(run[i]) || IsSpurious(run[i])
  }

  predicate IsSpurious(step: Step) {
    step.SpuriousMain? || step.SpuriousWork?
  }

  function Spurious(run: seq<Step>): nat {
    if run == [] then 0 else (if IsSpurious(run[0]) then 1 else 0) + Spurious(run[1..])
  }

  /** A spurious wake-up costs the main thread two statements; a fetch thread never sleeps. */
  lemma SpuriousRaises(c: seq<Outcome>, s: State, step: Step)
    requires Inv(c, s) && IsSpurious(step) && Next(c, s, step).Some?
    ensures Measure(c, Next(c, s, step).value) <= Measure(c, s) + 2
  {
    hide Data, IsChain, Control, InFlight, WorkersRank;
  }

  /**
   Under every scheduler the running call takes at most |c| + 58 steps, and three more for each spurious wake-up:
   itself and the two statements that put the main thread back to sleep.
   */
  lemma {:induction false} CallsTerminate(c: seq<Outcome>, s: State, run: seq<Step>)
    requires Inv(c, s) && Running(run) && Exec(c, s, run).Some?
    ensures |run| <= Measure(c, s) + 3 * Spurious(run) <= |c| + 58 + 3 * Spurious(run)
    decreases |run|
  {
    hide Inv, Next, IsChain, InFlight, Measure, Internal, IsSpurious;
    MeasureBound(c, s);
    if run != [] {
      var t := Next(c, s, run[0]).value;
      StepKeeps(c, s, run[0]);
      if IsSpurious(run[0]) { SpuriousRaises(c, s, run[0]); } else { StepDecreases(c, s, run[0]); }
      assert Running(run[1..]);
      CallsTerminate(c, t, run[1..]);
    }
  }

  lemma MeasureBound(c: seq<Outcome>, s: State)
    requires Inv(c, s)
    ensures Measure(c, s) <= |c| + 58
  {
    hide Data, IsChain, InFlight;
    if s.threads != [] { assert s.threads == [s.threads[0]]; RankOfOne(s.threads[0]); }
  }

  /** A fetch thread that has not exited can take a step, unless it waits for a mutex the main thread holds. */
  lemma WorkerReady(c: seq<Outcome>, s: State) returns (wake: Wake)
    requires Inv(c, s) && s.threads != [] && !s.threads[0].Exited? && !(s.threads[0].Locking? && MainHolds(s.main))
    ensures WorkStep(c, s, 0, wake).Some?
  {
    hide Data, IsChain, Control, InFlight;
    wake := if s.main.SwitchSleep? then MainThread else NoOne;
  }

  /** With no fetch thread left to run, the main thread can step unless it sleeps. */
  lemma MainReady(c: seq<Outcome>, s: State)
    requires Inv(c, s) && !s.main.Idle? && !s.main.SwitchSleep?
    requires s.threads == [] || s.threads[0].Exited? || MainHolds(s.main)
    ensures MainStep(c, s, true).Some?
  {
    hide Data, IsChain, InFlight;
  }

  /** The only way to be stranded: asleep behind an empty page. */
  lemma BlockedMeansDrained(c: seq<Outcome>, s: State)
    requires Inv(c, s) && Blocked(c, s)
    ensures s.main.SwitchSleep? && Drained(c, s) && EmptyLaterPage(c)
  {
    hide Data, IsChain, MainStep, EmptyLaterPage, WorkStep, Next;
    if s.threads != [] && !s.threads[0].Exited? && !MainHolds(s.main) {
      var wake := WorkerReady(c, s);
      assert false;
    }
    if !s.main.SwitchSleep? {
      MainReady(c, s);
    }
    SleepingDrained(c, s);
  }

  lemma SleepingDrained(c: seq<Outcome>, s: State)
    requires Inv(c, s) && s.main.SwitchSleep? && (s.threads == [] || s.threads[0].Exited?)
    ensures Drained(c, s) && EmptyLaterPage(c)
  {
    hide EmptyLaterPage, OnSpine, RowsBefore, Flat, IsChain;
    assert Transit(s) == 0 by {
      if s.threads != [] { assert s.threads == [s.threads[0]]; OneThread(s.threads[0]); }
    }
    NoMorePages(c, s);
  }
}
