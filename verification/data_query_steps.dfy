/** The statements of `DataQuery`, one lemma each: the state they lead to, in the step system. */
module DataQuerySteps {
  import opened Options
  import opened Datums
  import opened ServerChain
  import opened Pager
  import opened PagerInvariant
  import opened PagerDelivery
  import opened PagerSafety
  import opened PagerLiveness
  import opened PagerDeadlock

  /** One statement of the main thread, added to a run. */
  lemma Advance(c: seq<Outcome>, start: State, s: State, step: Step, t: State)
    requires Inv(c, s) && Reaches(c, start, s) && Next(c, s, step) == Some(t)
    ensures Inv(c, t) && Reaches(c, start, t)
  {
    hide Inv, Next;
    StepKeeps(c, s, step);
    OneStep(c, s, step);
    Concat(c, start, s, t);
  }

  lemma AtMostOneThread(c: seq<Outcome>, s: State)
    requires Inv(c, s)
    ensures |s.threads| <= 1
  {
    hide Data, IsChain, Control;
  }

  lemma LockStep(c: seq<Outcome>, s: State)
    requires s.main.SwitchLock? && |s.threads| <= 1 && (s.threads != [] ==> !Holds(s.threads[0]))
    ensures Next(c, s, Main(true)) == Some(s.(main := SwitchCheck))
  {
  }

  lemma CheckStep(c: seq<Outcome>, s: State)
    requires s.main.SwitchCheck?
    ensures Next(c, s, Main(true)) == Some(s.(main := if s.queue == [] then SwitchSleep else SwitchPop))
  {
  }

  lemma PopStep(c: seq<Outcome>, s: State)
    requires s.main.SwitchPop? && s.queue != []
    ensures Next(c, s, Main(true)) == Some(s.(queue := s.queue[1..], main := SwitchUnlock(s.queue[0])))
  {
  }

  lemma UnlockStep(c: seq<Outcome>, s: State)
    requires s.main.SwitchUnlock?
    ensures Next(c, s, Main(true)) == Some(s.(main := SwitchHandle(s.main.got)))
  {
  }

  lemma PopHasPage(c: seq<Outcome>, s: State)
    requires Inv(c, s) && s.main.SwitchPop?
    ensures s.queue != []
  {
    hide Data, IsChain, InFlight;
  }

  /** Asleep, with a page on its way: the fetch thread can run. */
  lemma SomeoneComes(c: seq<Outcome>, s: State)
    requires Inv(c, s) && s.main.SwitchSleep? && !Drained(c, s)
    ensures s.threads != [] && !s.threads[0].Exited?
  {
    hide Inv, Drained;
    if s.threads == [] || s.threads[0].Exited? { SleepingDrained(c, s); }
  }

  lemma OneThreadAwake(c: seq<Outcome>, s: State)
    requires Inv(c, s) && s.threads != []
    ensures |s.threads| == 1 && !s.threads[0].Sleeping?
  {
    hide Data, IsChain, Control;
  }

  /** Where a statement that does not push leaves its thread; `mayPush` is the wait condition. */
  function MovedOn(w: Worker, answer: Outcome, mayPush: bool): Worker {
    match w
    case Asking => Locking(answer)
    case Locking(got) => Checking(got)
    case Checking(got) => if mayPush then Pushing(got) else Sleeping(got)
    case _ => Exited
  }

  /** The statements of `AsyncFetchOnePage` that do not push. */
  lemma StatementStep(c: seq<Outcome>, s: State, wake: Wake)
    requires |s.threads| == 1 && WorkStep(c, s, 0, wake).Some? && !s.threads[0].Pushing?
    ensures WorkStep(c, s, 0, wake).value == s.(
      asked := if s.threads[0].Asking? then s.asked + [s.token] else s.asked,
      threads := s.threads[0 := MovedOn(s.threads[0], Answer(c, s.token), s.queue == [] || s.isClosing)])
  {
    hide MutexFree, Answer;
  }

  lemma PushStep(c: seq<Outcome>, s: State, wake: Wake)
    requires |s.threads| == 1 && WorkStep(c, s, 0, wake).Some? && s.threads[0].Pushing?
    ensures WorkStep(c, s, 0, wake).value == s.(
      threads := s.threads[0 := Releasing],
      queue := if s.queue == [] then [s.threads[0].got] else s.queue,
      main := if s.queue == [] && s.main.SwitchSleep? then SwitchLock else s.main)
  {
    if s.queue == [] {
      assert s.threads[0 := Releasing] == [Releasing];
      NotifyFrame(SetWorker(s, 0, Releasing).(queue := [s.threads[0].got]), wake);
    }
  }

  lemma WorkIsNext(c: seq<Outcome>, s: State, wake: Wake)
    ensures Next(c, s, Work(0, wake)) == WorkStep(c, s, 0, wake)
  {
  }

  /** What `SwitchCursor` does with the outcome it popped. */
  function Handled(s: State, got: Outcome): State {
    if got.Failure? then s.(cursor := None, hasAsync := false, main := Idle, ret := Error)
    else if got.rows == [] then s.(result := Some(got), main := Idle, ret := NoData)
    else s.(result := Some(got), cursor := Some(PageCursor(got.rows, 1)), hasAsync := s.hasAsync && got.next.Some?,
            main := if got.next.None? then Reading else SwitchJoin)
  }

  lemma HandleStep(c: seq<Outcome>, s: State)
    requires s.main.SwitchHandle?
    ensures Next(c, s, Main(true)) == Some(Handled(s, s.main.got))
  {
  }

  lemma HandledFrame(s: State, got: Outcome)
    ensures var t := Handled(s, got);
      && t.visited == s.visited && t.rowCounter == s.rowCounter && t.failed == s.failed
      && if got.Failure? then t.main.Idle? && t.ret == Error && t.cursor.None?
         else if got.rows == [] then t.main.Idle? && t.ret == NoData
         else t.result == Some(got) && if got.next.None? then t.main.Reading? else t.main.SwitchJoin?
  {
  }

  lemma HandledDone(c: seq<Outcome>, s: State)
    requires Inv(c, s) && s.main.SwitchHandle? && Handled(s, s.main.got).main.Idle?
    ensures s.cursor.Some? && s.visited == Flat(c)
    ensures Handled(s, s.main.got).ret == if TailEnd(c, FirstPage(c, 0)).Failed? then Error else NoData
  {
    hide Inv, Next;
    HandleStep(c, s);
    HandleCursor(c, s);
    EndsOnlyWhenDone(c, s, true);
  }

  lemma HandleCursor(c: seq<Outcome>, s: State)
    requires Inv(c, s) && s.main.SwitchHandle?
    ensures s.cursor.Some? && Next(c, s, Main(true)) == MainStep(c, s, true)
  {
    hide Data, IsChain, InFlight;
  }

  lemma JoinStep(c: seq<Outcome>, s: State)
    requires s.main.SwitchJoin? && (s.threads == [] || s.threads[0].Exited?)
    ensures Next(c, s, Main(true)) == Some(s.(threads := if s.threads == [] then [] else s.threads[1..], main := SwitchToken))
  {
  }

  lemma TokenStep(c: seq<Outcome>, s: State)
    requires Inv(c, s) && s.main.SwitchToken?
    ensures s.result.Some? && s.result.value.Page? && s.result.value.next.Some?
    ensures Next(c, s, Main(true)) == Some(s.(token := s.result.value.next.value, main := SwitchSpawn))
  {
    hide Data, IsChain, InFlight;
  }

  lemma SpawnStep(c: seq<Outcome>, s: State)
    requires s.main.SwitchSpawn?
    ensures Next(c, s, Main(true)) == Some(s.(threads := s.threads + [Asking], main := Reading))
  {
  }

  lemma CallFetchStep(c: seq<Outcome>, s: State)
    requires s.main.Idle?
    ensures Next(c, s, CallFetch) == Some(s.(main := FetchTop))
  {
  }

  /** The increment at the top of `FetchNextRow`. */
  function Topped(s: State): State {
    if s.cursor.None? then Return(s, NoData)
    else
      var k := s.cursor.value.(pos := s.cursor.value.pos + 1);
      var t := s.(cursor := Some(k));
      if HasData(k) then t.(main := Reading) else if s.hasAsync then t.(main := SwitchLock) else Return(t, NoData)
  }

  lemma TopStep(c: seq<Outcome>, s: State)
    requires s.main.FetchTop?
    ensures Next(c, s, Main(true)) == MainStep(c, s, true) == Some(Topped(s))
  {
  }

  lemma ToppedDone(c: seq<Outcome>, s: State)
    requires Inv(c, s) && s.main.FetchTop? && s.cursor.Some? && Topped(s).main.Idle?
    ensures s.visited == Flat(c) && Topped(s).ret == if TailEnd(c, FirstPage(c, 0)).Failed? then Error else NoData
  {
    hide Inv, Next, MainStep;
    TopStep(c, s);
    EndsOnlyWhenDone(c, s, true);
  }

  function RowRead(s: State, readable: bool, row: Row): State {
    s.(main := Idle, ret := if readable then Success else Error, visited := s.visited + [row],
       rowCounter := if readable then s.rowCounter + 1 else s.rowCounter,
       failed := if readable then s.failed else s.failed + 1)
  }

  lemma ReadStep(c: seq<Outcome>, s: State, readable: bool)
    requires s.main.Reading? && s.cursor.Some? && 1 <= s.cursor.value.pos <= |s.cursor.value.rows|
    ensures Next(c, s, Main(readable)) == Some(RowRead(s, readable, s.cursor.value.rows[s.cursor.value.pos - 1]))
  {
  }

  lemma VisitedPrefix(c: seq<Outcome>, s: State)
    requires Inv(c, s)
    ensures s.visited <= Flat(c)
  {
    hide Shape, IsChain, Flat;
    PrefixOfFlat(c, s);
  }

  lemma Stay(c: seq<Outcome>, s: State)
    ensures Reaches(c, s, s)
  {
    assert Exec(c, s, []) == Some(s);
  }

  /** Unless an empty page cuts the sequence short, no fetch is ever stranded. */
  lemma AlwaysLive(c: seq<Outcome>, s: State)
    requires Inv(c, s) && s.main.Idle? && s.cursor.Some? && s.hasAsync && !EmptyLaterPage(c)
    ensures s.result.Some? && s.result.value.Page? && s.result.value.rows != []
  {
    hide OnSpine, RowsBefore, Flat, FirstPage, Iota, InFlight;
    if Drained(c, s) {
      SpineHasRows(c, s);
    }
  }

  /** Behind the empty page the last result is that page; before it, the cursor's page. */
  lemma DrainedIff(c: seq<Outcome>, s: State)
    requires Inv(c, s) && s.main.Idle? && s.cursor.Some?
    ensures Drained(c, s) <==>
      s.hasAsync && !(s.result.Some? && s.result.value.Page? && s.result.value.rows != [])
  {
    hide Data, IsChain, InFlight;
  }

  lemma CallExecuteStep(c: seq<Outcome>, s: State)
    requires s.main.Idle? && !s.executed
    ensures Next(c, s, CallExecute) == Some(s.(main := Executing, executed := true))
  {
  }

  lemma BeforeExecute(c: seq<Outcome>, s: State)
    requires Inv(c, s) && s.main.Idle? && !s.executed
    ensures s.cursor.None? && s.visited == [] && !s.abandoned
  {
    hide IsChain, InFlight;
  }

  /** One round of the loop in `MakeRequestExecute`. */
  function Asked(s: State, got: Outcome): State {
    var t := s.(asked := s.asked + [s.token]);
    if got.Failure? then t.(main := CloseFlag, ret := Error)
    else if got.rows == [] then
      if got.next.None? then t.(result := Some(got), main := Idle, ret := NoData)
      else t.(result := Some(got), token := got.next.value)
    else t.(result := Some(got), cursor := Some(PageCursor(got.rows, 0)), main := if got.next.None? then ExecFetch else ExecToken)
  }

  lemma AskedFrame(s: State, got: Outcome)
    requires s.main.Executing? && s.cursor.None?
    ensures var t := Asked(s, got);
      && t.visited == s.visited && t.abandoned == s.abandoned && t.rowCounter == s.rowCounter
      && if got.Failure? then t.main.CloseFlag? && t.cursor.None?
         else if got.rows != [] then t.result == Some(got) && if got.next.None? then t.main.ExecFetch? else t.main.ExecToken?
         else t.cursor.None? && if got.next.None? then t.main.Idle? else t.main.Executing? && t.token == got.next.value
  {
  }

  lemma AskStep(c: seq<Outcome>, s: State)
    requires s.main.Executing?
    ensures Next(c, s, Main(true)) == Some(Asked(s, Answer(c, s.token)))
  {
    hide Answer;
  }

  /** What the first answer that ends the loop says about the whole sequence. */
  lemma FirstAnswer(c: seq<Outcome>, s: State)
    requires Inv(c, s) && s.main.Executing?
    ensures s.token < |c| && s.cursor.None? && s.threads == []
    ensures var got := Answer(c, s.token);
      && (got.Failure? ==> Flat(c) == [] && TailEnd(c, FirstPage(c, 0)).Failed?)
      && (got.Page? && got.rows == [] && got.next.None? ==> Flat(c) == [] && TailEnd(c, FirstPage(c, 0)) == Emptied)
      && (got.Page? && got.rows == [] && got.next.Some? ==> got.next.value == s.token + 1 < |c|)
      && (got.Page? && got.rows != [] ==> Flat(c) != [])
  {
    hide OnSpine, RowsBefore, Iota, InFlight;
  }

  lemma ExecTokenStep(c: seq<Outcome>, s: State)
    requires Inv(c, s) && s.main.ExecToken?
    ensures s.result.Some? && s.result.value.Page? && s.result.value.next.Some?
    ensures Next(c, s, Main(true)) == Some(s.(token := s.result.value.next.value, main := ExecSpawn))
  {
    hide Data, IsChain, InFlight;
  }

  lemma ExecSpawnStep(c: seq<Outcome>, s: State)
    requires s.main.ExecSpawn?
    ensures Next(c, s, Main(true)) == Some(s.(threads := s.threads + [Asking], main := ExecFlag))
  {
  }

  lemma ExecFlagStep(c: seq<Outcome>, s: State)
    requires s.main.ExecFlag?
    ensures Next(c, s, Main(true)) == Some(s.(hasAsync := true, main := ExecFetch))
  {
  }

  lemma ExecFetchStep(c: seq<Outcome>, s: State)
    requires Inv(c, s) && s.main.ExecFetch?
    ensures s.result.Some? && s.result.value.Page? && s.result.value.rows != []
    ensures Next(c, s, Main(true)) == Some(s.(
      cursor := Some(PageCursor(s.result.value.rows, 0)), main := Idle, ret := Success))
  {
    hide Data, IsChain, InFlight;
  }

  lemma CallCloseStep(c: seq<Outcome>, s: State)
    requires s.main.Idle?
    ensures Next(c, s, CallClose) == Some(s.(main := CloseFlag, ret := Success))
  {
  }

  lemma CloseFlagStep(c: seq<Outcome>, s: State)
    requires s.main.CloseFlag?
    ensures Next(c, s, Main(true)) == Some(s.(isClosing := true, main := CloseJoin))
  {
  }

  lemma CloseJoinStep(c: seq<Outcome>, s: State)
    requires s.main.CloseJoin? && (s.threads == [] || s.threads[0].Exited?)
    ensures Next(c, s, Main(true)) ==
      Some(if s.threads == [] then s.(main := CloseReset) else s.(threads := s.threads[1..]))
  {
  }

  lemma CloseResetStep(c: seq<Outcome>, s: State)
    requires s.main.CloseReset?
    ensures Next(c, s, Main(true)) ==
      Some(s.(result := None, cursor := None, main := Idle, abandoned := s.abandoned || s.cursor.Some?))
  {
  }

  lemma NoOrphan(c: seq<Outcome>, s: State)
    requires Inv(c, s) && s.result.None?
    ensures s.threads == []
  {
    hide Data, IsChain, Control, InFlight;
  }
}
