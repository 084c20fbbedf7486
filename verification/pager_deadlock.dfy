/**
 The exact condition for a deadlock: some run of the pager gets stuck if and only if an empty page cuts
 the row sequence short.
 */
module PagerDeadlock {
  import opened Options
  import opened Datums
  import opened ServerChain
  import opened Pager
  import opened PagerInvariant
  import opened PagerDelivery
  import opened PagerSafety
  import opened PagerLiveness

  lemma {:induction false} Concat(c: seq<Outcome>, s: State, t: State, u: State)
    requires Reaches(c, s, t) && Reaches(c, t, u)
    ensures Reaches(c, s, u)
  {
    var run1: seq<Step> :| Exec(c, s, run1) == Some(t);
    var run2: seq<Step> :| Exec(c, t, run2) == Some(u);
    ExecConcat(c, s, run1, run2);
  }

  lemma {:induction false} ExecConcat(c: seq<Outcome>, s: State, run1: seq<Step>, run2: seq<Step>)
    requires Exec(c, s, run1).Some?
    ensures Exec(c, s, run1 + run2) == Exec(c, Exec(c, s, run1).value, run2)
    decreases |run1|
  {
    hide Next;
    if run1 == [] {
      assert run1 + run2 == run2;
    } else {
      assert (run1 + run2)[1..] == run1[1..] + run2;
      ExecConcat(c, Next(c, s, run1[0]).value, run1[1..], run2);
    }
  }

  lemma OneStep(c: seq<Outcome>, s: State, step: Step)
    requires Next(c, s, step).Some?
    ensures Reaches(c, s, Next(c, s, step).value)
  {
    hide Next;
    var t := Next(c, s, step).value;
    assert Exec(c, t, [step][1..]) == Some(t);
    assert Exec(c, s, [step]) == Some(t);
  }

  /** A call that is neither finished nor blocked has a next step. */
  lemma SomeStep(c: seq<Outcome>, s: State) returns (step: Step)
    requires !s.main.Idle? && !Blocked(c, s)
    ensures Internal(step) && Next(c, s, step).Some? && (step.Main? ==> step.readable)
  {
    if MainStep(c, s, true).Some? {
      step := Main(true);
    } else {
      var i: nat, wake: Wake :| WorkStep(c, s, i, wake).Some?;
      step := Work(i, wake);
    }
  }

  /** The state right after `Execute` returned rows, or while it runs. */
  ghost predicate Executes(c: seq<Outcome>, s: State) {
    Inv(c, s) && Flat(c) != [] && s.executed && !s.abandoned && s.visited == [] && (InExecute(s.main) || s.main.Idle?)
  }

  /** A fetch called in state `s0` of a query whose sequence ends in an empty page, running or finished. */
  ghost predicate Fetches(c: seq<Outcome>, s0: State, s: State) {
    && Inv(c, s) && EmptyLaterPage(c) && s.cursor.Some?
    && if s.main.Idle? then
         || |s.visited| == |s0.visited| + 1
         || (s.visited == s0.visited && Drained(c, s) && !Drained(c, s0))
       else
         && !InExecute(s.main) && !InClose(s.main)
         && s.visited == s0.visited
         && (Drained(c, s0) ==>
               && Drained(c, s)
               && (s.main.FetchTop? || s.main.Reading? || s.main.SwitchLock? || s.main.SwitchCheck? || s.main.SwitchSleep?))
  }

  lemma ExecutesMain(c: seq<Outcome>, s: State)
    requires Executes(c, s) && InExecute(s.main) && ExecuteStep(c, s).Some?
    ensures Executes(c, ExecuteStep(c, s).value)
  {
    hide OnSpine, RowsBefore, Flat, Iota, IsChain, FirstPage, InFlight;
    MainKeeps(c, s, true);
  }

  lemma ExecutesStep(c: seq<Outcome>, s: State, step: Step)
    requires Executes(c, s) && !s.main.Idle? && Internal(step) && Next(c, s, step).Some?
    ensures Executes(c, Next(c, s, step).value)
  {
    hide Data, Control, Flat, IsChain, ExecuteStep, WorkStep;
    if step.Main? {
      ExecutesMain(c, s);
    } else {
      StepKeeps(c, s, step);
      ThreadExists(c, s, step.i, step.wake);
      WorkFrame(c, s, step.wake);
    }
  }

  /** `Execute` of a query with rows can be run to its end, and leaves an open cursor. */
  lemma {:induction false} ExecuteCompletes(c: seq<Outcome>, s: State) returns (t: State)
    requires Executes(c, s)
    ensures Executes(c, t) && t.main.Idle? && t.cursor.Some? && Reaches(c, s, t)
    decreases Measure(c, s)
  {
    hide Shape, Data, Next, IsChain, Measure, Flat;
    if s.main.Idle? {
      t := s;
      assert Exec(c, s, []) == Some(s);
      OpenCursor(c, s);
    } else {
      if Blocked(c, s) { BlockedMeansDrained(c, s); assert false; }
      var step := SomeStep(c, s);
      var u := Next(c, s, step).value;
      ExecutesStep(c, s, step);
      StepDecreases(c, s, step);
      OneStep(c, s, step);
      t := ExecuteCompletes(c, u);
      Concat(c, s, u, t);
    }
  }

  lemma OpenCursor(c: seq<Outcome>, s: State)
    requires Executes(c, s) && s.main.Idle?
    ensures s.cursor.Some?
  {
  }

  lemma FetchesWork(c: seq<Outcome>, s0: State, s: State, wake: Wake)
    requires Fetches(c, s0, s) && !s.main.Idle? && s.threads != [] && WorkStep(c, s, 0, wake).Some?
    ensures Fetches(c, s0, WorkStep(c, s, 0, wake).value)
  {
    hide EmptyLaterPage, Data, IsChain, Control;
    WorkFrame(c, s, wake);
    StepKeeps(c, s, Work(0, wake));
    var t := WorkStep(c, s, 0, wake).value;
    assert s.threads == [s.threads[0]] && t.threads == [t.threads[0]];
    OneThread(s.threads[0]);
    OneThread(t.threads[0]);
  }

  lemma FetchesTop(c: seq<Outcome>, s0: State, s: State)
    requires Fetches(c, s0, s) && s.main.FetchTop?
    ensures Fetches(c, s0, FetchStep(s, true).value)
  {
    hide EmptyLaterPage, OnSpine, RowsBefore, Flat, Iota, IsChain, InFlight;
    MainKeeps(c, s, true);
    var t := FetchStep(s, true).value;
    if t.main.Idle? { LastPageDone(c, s); }
  }

  lemma FetchesHandle(c: seq<Outcome>, s0: State, s: State)
    requires Fetches(c, s0, s) && s.main.SwitchHandle?
    ensures Fetches(c, s0, SwitchStep(s).value)
  {
    hide EmptyLaterPage, OnSpine, RowsBefore, Flat, Iota, IsChain, InFlight;
    MainKeeps(c, s, true);
    if SwitchStep(s).value.main.Idle? { NoMorePages(c, s); }
  }

  lemma FetchesSwitch(c: seq<Outcome>, s0: State, s: State)
    requires Fetches(c, s0, s) && SwitchStep(s).Some? && !s.main.SwitchHandle?
    ensures Fetches(c, s0, SwitchStep(s).value)
  {
    hide EmptyLaterPage, Shape, Data, IsChain, InFlight, MutexFree, SwitchStep;
    SwitchFrame(s);
    MainKeeps(c, s, true);
    if s.main.SwitchLock? || s.main.SwitchCheck? {
      WaitFrame(s);
      if Drained(c, s0) { assert s.queue == []; }
    }
  }

  lemma SwitchFrame(s: State)
    requires SwitchStep(s).Some? && !s.main.SwitchHandle?
    ensures !s.main.Idle? && !InExecute(s.main) && !InFetch(s.main) && !InClose(s.main) && !s.main.SwitchSleep?
    ensures var t := SwitchStep(s).value;
      && t.visited == s.visited && t.cursor == s.cursor
      && !t.main.Idle? && !InExecute(t.main) && !InClose(t.main)
  {
    hide MutexFree, SwitchStep, InExecute, InFetch, InClose;
    SwitchStays(s);
    SwitchPcs(s);
  }

  lemma SwitchStays(s: State)
    requires SwitchStep(s).Some? && !s.main.SwitchHandle?
    ensures SwitchStep(s).value.visited == s.visited && SwitchStep(s).value.cursor == s.cursor
  {
    hide MutexFree;
  }

  lemma SwitchPcs(s: State)
    requires SwitchStep(s).Some? && !s.main.SwitchHandle?
    ensures !s.main.Idle? && !InExecute(s.main) && !InFetch(s.main) && !InClose(s.main) && !s.main.SwitchSleep?
    ensures var m := SwitchStep(s).value.main; !m.Idle? && !InExecute(m) && !InClose(m)
  {
    hide MutexFree, Spawn;
    match s.main
    case SwitchLock =>
    case SwitchCheck =>
    case SwitchPop =>
    case SwitchUnlock(_) =>
    case SwitchJoin =>
    case SwitchToken =>
    case SwitchSpawn => SpawnMain(s);
    case _ =>
  }

  lemma WaitFrame(s: State)
    requires SwitchStep(s).Some? && (s.main.SwitchLock? || s.main.SwitchCheck?)
    ensures SwitchStep(s).value ==
      s.(main := if s.main.SwitchLock? then SwitchCheck else if s.queue == [] then SwitchSleep else SwitchPop)
  {
    hide MutexFree;
  }

  lemma FetchesStep(c: seq<Outcome>, s0: State, s: State, step: Step)
    requires Fetches(c, s0, s) && !s.main.Idle? && Internal(step) && Next(c, s, step).Some?
    requires step.Main? ==> step.readable
    ensures Fetches(c, s0, Next(c, s, step).value)
  {
    hide EmptyLaterPage, Data, Control, IsChain, WorkStep, SwitchStep, Drained;
    if step.Work? {
      ThreadExists(c, s, step.i, step.wake);
      FetchesWork(c, s0, s, step.wake);
    } else if s.main.FetchTop? {
      FetchesTop(c, s0, s);
    } else if s.main.Reading? {
      MainKeeps(c, s, true);
    } else if s.main.SwitchHandle? {
      FetchesHandle(c, s0, s);
    } else {
      FetchesSwitch(c, s0, s);
    }
  }

  /** A fetch can be run until it returns or is stuck. */
  lemma {:induction false} FetchCompletes(c: seq<Outcome>, s0: State, s: State) returns (t: State)
    requires Fetches(c, s0, s)
    ensures Fetches(c, s0, t) && (t.main.Idle? || Blocked(c, t)) && Reaches(c, s, t)
    decreases Measure(c, s)
  {
    hide Shape, Data, Next, IsChain, Measure, EmptyLaterPage, Blocked, Drained;
    if s.main.Idle? || Blocked(c, s) {
      t := s;
      assert Exec(c, s, []) == Some(s);
    } else {
      var step := SomeStep(c, s);
      var u := Next(c, s, step).value;
      FetchesStep(c, s0, s, step);
      StepDecreases(c, s, step);
      OneStep(c, s, step);
      t := FetchCompletes(c, s0, u);
      Concat(c, s, u, t);
    }
  }

  /** Fetching on and on ends in a stuck state. */
  lemma {:induction false} FetchingStrands(c: seq<Outcome>, s: State) returns (t: State)
    requires Inv(c, s) && EmptyLaterPage(c) && s.main.Idle? && s.cursor.Some?
    ensures Blocked(c, t) && Reaches(c, s, t)
    decreases |Flat(c)| - |s.visited|, if Drained(c, s) then 0 else 1
  {
    hide Shape, Data, IsChain, Measure, EmptyLaterPage, Blocked, Drained, Flat;
    var u := Next(c, s, CallFetch).value;
    StepKeeps(c, s, CallFetch);
    OneStep(c, s, CallFetch);
    assert Drained(c, s) == Drained(c, u) by { SameDrained(c, s); }
    var v := FetchCompletes(c, s, u);
    Concat(c, s, u, v);
    if Blocked(c, v) {
      t := v;
    } else {
      PrefixOfFlat(c, v);
      PrefixOfFlat(c, s);
      t := FetchingStrands(c, v);
      Concat(c, s, v, t);
    }
  }

  lemma SameDrained(c: seq<Outcome>, s: State)
    ensures Drained(c, s.(main := FetchTop)) == Drained(c, s)
  {
  }

  /**
   Deadlock freedom with its exact condition: a run that gets stuck exists if and only if the rows of
   the query are cut short by an empty page after the first non-empty one.
   */
  lemma DeadlockIff(c: seq<Outcome>)
    requires IsChain(c)
    ensures (exists s :: Reachable(c, s) && Blocked(c, s)) <==> EmptyLaterPage(c)
  {
    hide Inv, Blocked, EmptyLaterPage, IsChain, Next;
    if s :| Reachable(c, s) && Blocked(c, s) {
      ReachableInv(c, s);
      BlockedMeansDrained(c, s);
    }
    if EmptyLaterPage(c) {
      var s := StrandedRun(c);
    }
  }

  lemma StrandedRun(c: seq<Outcome>) returns (t: State)
    requires IsChain(c) && EmptyLaterPage(c)
    ensures Reachable(c, t) && Blocked(c, t)
  {
    hide Shape, Data, Blocked, IsChain, Flat;
    InitInv(c);
    var s := Next(c, Init, CallExecute).value;
    StepKeeps(c, Init, CallExecute);
    OneStep(c, Init, CallExecute);
    var u := ExecuteCompletes(c, s);
    Concat(c, Init, s, u);
    t := FetchingStrands(c, u);
    Concat(c, Init, u, t);
  }

  /**
   Without such a page every call, once started, ends under every scheduler that lets some thread step, however
   often the main thread is woken for nothing.
   */
  lemma CallsEndIdle(c: seq<Outcome>, s: State, run: seq<Step>)
    requires IsChain(c) && !EmptyLaterPage(c) && Reachable(c, s)
    requires Running(run) && Exec(c, s, run).Some?
    ensures |run| <= |c| + 58 + 3 * Spurious(run)
    ensures var t := Exec(c, s, run).value;
      t.main.Idle? || exists step :: Internal(step) && Next(c, t, step).Some?
  {
    hide Inv, Blocked, EmptyLaterPage, IsChain, Next;
    ReachableInv(c, s);
    CallsTerminate(c, s, run);
    RunKeeps(c, s, run);
    var t := Exec(c, s, run).value;
    if !t.main.Idle? {
      if Blocked(c, t) { BlockedMeansDrained(c, t); }
      var step := SomeStep(c, t);
    }
  }

  // ---- Exactly which fetch hangs. ----

  /** A fetch behind the empty page: it goes to sleep and nobody will ever notify. */
  ghost predicate Stranded(c: seq<Outcome>, s: State) {
    && Inv(c, s) && Drained(c, s) && s.hasAsync
    && (s.main.FetchTop? || s.main.SwitchLock? || s.main.SwitchCheck? || s.main.SwitchSleep?)
  }

  lemma StrandedMain(c: seq<Outcome>, s: State, readable: bool)
    requires Stranded(c, s) && MainStep(c, s, readable).Some?
    ensures Stranded(c, MainStep(c, s, readable).value)
  {
    hide Data, IsChain, MutexFree;
    MainKeeps(c, s, readable);
  }

  lemma StrandedWork(c: seq<Outcome>, s: State, wake: Wake)
    requires Stranded(c, s) && s.threads != [] && WorkStep(c, s, 0, wake).Some?
    ensures Stranded(c, WorkStep(c, s, 0, wake).value)
  {
    hide Data, IsChain, Control;
    WorkFrame(c, s, wake);
    StepKeeps(c, s, Work(0, wake));
    var t := WorkStep(c, s, 0, wake).value;
    assert s.threads == [s.threads[0]] && t.threads == [t.threads[0]];
    OneThread(s.threads[0]);
    OneThread(t.threads[0]);
  }

  lemma StrandedStep(c: seq<Outcome>, s: State, step: Step)
    requires Stranded(c, s) && (Internal(step) || IsSpurious(step)) && Next(c, s, step).Some?
    ensures Stranded(c, Next(c, s, step).value)
  {
    hide Data, IsChain, Control, InFlight, WorkStep, MainStep;
    match step {
      case Main(readable) => StrandedMain(c, s, readable);
      case Work(i, wake) => ThreadExists(c, s, i, wake); StrandedWork(c, s, wake);
      case SpuriousMain => StepKeeps(c, s, step);
      case _ =>
    }
  }

  lemma {:induction false} StrandedForever(c: seq<Outcome>, s: State, run: seq<Step>)
    requires Stranded(c, s) && Running(run) && Exec(c, s, run).Some?
    ensures Stranded(c, Exec(c, s, run).value)
    decreases |run|
  {
    hide Stranded, Next, Internal, IsSpurious;
    if run != [] {
      StrandedStep(c, s, run[0]);
      assert Running(run[1..]);
      StrandedForever(c, Next(c, s, run[0]).value, run[1..]);
    }
  }

  lemma DrainedStrands(c: seq<Outcome>, s: State)
    requires Inv(c, s) && s.main.Idle? && Drained(c, s)
    ensures Next(c, s, CallFetch) == Some(s.(main := FetchTop)) && Stranded(c, s.(main := FetchTop))
    ensures EmptyLaterPage(c)
  {
    hide OnSpine, RowsBefore, Flat, IsChain, InFlight, EmptyLaterPage;
    StepKeeps(c, s, CallFetch);
    NoMorePages(c, s);
  }

  /** After an empty page has ended the data, no run of a further fetch ever returns. */
  lemma FetchNeverReturns(c: seq<Outcome>, s: State, run: seq<Step>)
    requires IsChain(c) && Reachable(c, s) && s.main.Idle? && Drained(c, s)
    requires Running(run) && Exec(c, s.(main := FetchTop), run).Some?
    ensures !Exec(c, s.(main := FetchTop), run).value.main.Idle?
  {
    hide Inv, Next, Drained;
    ReachableInv(c, s);
    DrainedStrands(c, s);
    StrandedForever(c, s.(main := FetchTop), run);
  }

  /** A fetch that did not begin behind the empty page is not behind it before it returns. */
  ghost predicate Supplies(c: seq<Outcome>, s: State) {
    Inv(c, s) && (s.main.Idle? || (!Drained(c, s) && !InExecute(s.main) && !InClose(s.main)))
  }

  lemma SuppliesFetch(c: seq<Outcome>, s: State, readable: bool)
    requires Supplies(c, s) && InFetch(s.main) && FetchStep(s, readable).Some?
    ensures Supplies(c, FetchStep(s, readable).value)
  {
    hide Data, IsChain, InFlight;
    MainKeeps(c, s, readable);
  }

  lemma SuppliesTake(c: seq<Outcome>, s: State)
    requires Supplies(c, s) && SwitchStep(s).Some?
    requires s.main.SwitchLock? || s.main.SwitchCheck? || s.main.SwitchPop? || s.main.SwitchUnlock?
    ensures Supplies(c, SwitchStep(s).value)
  {
    hide Data, IsChain, MutexFree, InFlight;
    MainKeeps(c, s, true);
  }

  lemma SuppliesHandle(c: seq<Outcome>, s: State)
    requires Supplies(c, s) && s.main.SwitchHandle?
    ensures Supplies(c, SwitchStep(s).value)
  {
    hide Data, IsChain, InFlight;
    MainKeeps(c, s, true);
  }

  lemma SuppliesRestart(c: seq<Outcome>, s: State)
    requires Supplies(c, s) && SwitchStep(s).Some?
    requires s.main.SwitchJoin? || s.main.SwitchToken? || s.main.SwitchSpawn?
    ensures Supplies(c, SwitchStep(s).value)
  {
    hide Data, IsChain, InFlight;
    MainKeeps(c, s, true);
  }

  lemma SuppliesMain(c: seq<Outcome>, s: State, readable: bool)
    requires Supplies(c, s) && MainStep(c, s, readable).Some?
    ensures Supplies(c, MainStep(c, s, readable).value)
  {
    hide Inv, Drained, SwitchStep, FetchStep;
    if InFetch(s.main) {
      SuppliesFetch(c, s, readable);
    } else if s.main.SwitchHandle? {
      SuppliesHandle(c, s);
    } else if s.main.SwitchJoin? || s.main.SwitchToken? || s.main.SwitchSpawn? {
      SuppliesRestart(c, s);
    } else {
      AsleepWaits(s);
      SuppliesTake(c, s);
    }
  }

  lemma AsleepWaits(s: State)
    ensures s.main.SwitchSleep? ==> SwitchStep(s).None?
  {
  }

  lemma SuppliesWork(c: seq<Outcome>, s: State, wake: Wake)
    requires Supplies(c, s) && s.threads != [] && WorkStep(c, s, 0, wake).Some?
    ensures Supplies(c, WorkStep(c, s, 0, wake).value)
  {
    hide Data, IsChain, Control;
    WorkFrame(c, s, wake);
    StepKeeps(c, s, Work(0, wake));
    var t := WorkStep(c, s, 0, wake).value;
    assert s.threads == [s.threads[0]] && t.threads == [t.threads[0]];
    OneThread(s.threads[0]);
    OneThread(t.threads[0]);
  }

  lemma SuppliesStep(c: seq<Outcome>, s: State, step: Step)
    requires Supplies(c, s) && (Internal(step) || IsSpurious(step)) && Next(c, s, step).Some?
    ensures Supplies(c, Next(c, s, step).value)
  {
    hide Data, IsChain, Control, InFlight, WorkStep, MainStep;
    match step {
      case Main(readable) => SuppliesMain(c, s, readable);
      case Work(i, wake) => ThreadExists(c, s, i, wake); SuppliesWork(c, s, wake);
      case SpuriousMain => StepKeeps(c, s, step);
      case _ =>
    }
  }

  lemma {:induction false} SuppliesRun(c: seq<Outcome>, s: State, run: seq<Step>)
    requires Supplies(c, s) && Running(run) && Exec(c, s, run).Some?
    ensures Supplies(c, Exec(c, s, run).value)
    decreases |run|
  {
    hide Supplies, Next, Internal, IsSpurious;
    if run != [] {
      SuppliesStep(c, s, run[0]);
      assert Running(run[1..]);
      SuppliesRun(c, Next(c, s, run[0]).value, run[1..]);
    }
  }

  /** A run of the fetch called in `s` that gets stuck. */
  ghost predicate Hangs(c: seq<Outcome>, s: State, run: seq<Step>) {
    && Running(run)
    && Exec(c, s.(main := FetchTop), run).Some?
    && Blocked(c, Exec(c, s.(main := FetchTop), run).value)
  }

  /** A fetch can get stuck exactly when it is called behind the empty page; then it never returns. */
  lemma FetchHangsIff(c: seq<Outcome>, s: State)
    requires IsChain(c) && Reachable(c, s) && s.main.Idle?
    ensures (exists run :: Hangs(c, s, run)) <==> Drained(c, s)
  {
    hide Inv, Next, Drained, Blocked, IsChain;
    ReachableInv(c, s);
    if run :| Hangs(c, s, run) {
      var t := Exec(c, s.(main := FetchTop), run).value;
      if !Drained(c, s) {
        BeginSupplied(c, s);
        SuppliesRun(c, s.(main := FetchTop), run);
        BlockedMeansDrained(c, t);
        assert false;
      }
    }
    if Drained(c, s) {
      DrainedStrands(c, s);
      var run := StrandedBlocks(c, s.(main := FetchTop));
      assert Hangs(c, s, run);
    }
  }

  lemma BeginSupplied(c: seq<Outcome>, s: State)
    requires Inv(c, s) && s.main.Idle? && !Drained(c, s)
    ensures Supplies(c, s.(main := FetchTop))
  {
    hide Data, IsChain, InFlight, Control;
    StepKeeps(c, s, CallFetch);
  }

  /** A stranded fetch runs into the stuck state. */
  lemma {:induction false} StrandedBlocks(c: seq<Outcome>, s: State) returns (run: seq<Step>)
    requires Stranded(c, s)
    ensures Running(run) && Exec(c, s, run).Some? && Blocked(c, Exec(c, s, run).value)
    decreases Measure(c, s)
  {
    hide Inv, Drained, Next, Measure, Blocked;
    if Blocked(c, s) {
      run := [];
    } else {
      var step := SomeStep(c, s);
      var t := Next(c, s, step).value;
      StrandedStep(c, s, step);
      StepDecreases(c, s, step);
      var rest := StrandedBlocks(c, t);
      run := [step] + rest;
      assert run[1..] == rest;
    }
  }
}
