/**
 The prefetching pager as a step system: one main thread (the application inside `DataQuery`) and
 the fetch threads it starts. Every statement that touches shared state is one step, so a run is one
 interleaving. The mutex is not a variable of its own: it is held by the thread whose program counter
 lies between a lock and the matching unlock.
 */
module Pager {
  import opened Options
  import opened Datums
  import opened ServerChain

  datatype SqlResult = Success | SuccessWithInfo | NoData | Error

  /** `AsyncFetchOnePage`: ask the server, lock, test the wait condition, push and notify, unlock. */
  datatype Worker =
    | Asking
    | Locking(got: Outcome) | Checking(got: Outcome) | Sleeping(got: Outcome) | Pushing(got: Outcome)
    | Releasing | Exited

  /** One page and the position reached in it; row `pos - 1` is the current row. */
  datatype PageCursor = PageCursor(rows: seq<Row>, pos: nat)

  /** The statement the main thread executes next. */
  datatype MainPc =
    | Idle
    // MakeRequestExecute, MakeRequestFetch
    | Executing | ExecToken | ExecSpawn | ExecFlag | ExecFetch
    // FetchNextRow
    | FetchTop | Reading
    // SwitchCursor
    | SwitchLock | SwitchCheck | SwitchSleep | SwitchPop
    | SwitchUnlock(got: Outcome) | SwitchHandle(got: Outcome)
    | SwitchJoin | SwitchToken | SwitchSpawn
    // InternalClose
    | CloseFlag | CloseJoin | CloseReset

  /**
   The fields of `DataQuery` and its `DataQueryContext`, both program counters, and four history
   fields: the rows visited so far, the tokens asked for so far, the number of rows whose conversion
   failed, and whether a close threw rows away.
   */
  datatype State = State(
    main: MainPc,
    executed: bool,
    token: nat,
    result: Option<Outcome>,
    cursor: Option<PageCursor>,
    hasAsync: bool,
    rowCounter: nat,
    threads: seq<Worker>,
    queue: seq<Outcome>,
    isClosing: bool,
    ret: SqlResult,
    visited: seq<Row>,
    asked: seq<nat>,
    failed: nat,
    abandoned: bool)

  const Init := State(Idle, false, 0, None, None, false, 0, [], [], false, Success, [], [], 0, false)

  /** Who a notification wakes up. */
  datatype Wake = NoOne | MainThread | Thread(i: nat)

  datatype Step =
    | CallExecute
    | CallFetch
    | CallClose
    | Main(readable: bool)
    | Work(i: nat, wake: Wake)
    | SpuriousMain
    | SpuriousWork(i: nat)

  predicate Holds(w: Worker) {
    w.Checking? || w.Pushing? || w.Releasing?
  }

  predicate MainHolds(m: MainPc) {
    m.SwitchCheck? || m.SwitchPop? || m.SwitchUnlock?
  }

  predicate MutexFree(s: State) {
    !MainHolds(s.main) && forall i | 0 <= i < |s.threads| :: !Holds(s.threads[i])
  }

  /** `notify_one` wakes one of the waiting threads, or nobody when none waits. */
  predicate MayWake(s: State, wake: Wake) {
    match wake
    case NoOne => !s.main.SwitchSleep? && forall i | 0 <= i < |s.threads| :: !s.threads[i].Sleeping?
    case MainThread => s.main.SwitchSleep?
    case Thread(i) => i < |s.threads| && s.threads[i].Sleeping?
  }

  function Notify(s: State, wake: Wake): State
    requires MayWake(s, wake)
  {
    match wake
    case NoOne => s
    case MainThread => s.(main := SwitchLock)
    case Thread(i) => s.(threads := s.threads[i := Locking(s.threads[i].got)])
  }

  function SetWorker(s: State, i: nat, w: Worker): State
    requires i < |s.threads|
  {
    s.(threads := s.threads[i := w])
  }

  /** One step of fetch thread `i`; `wake` is whom its notification reaches. */
  function WorkStep(c: seq<Outcome>, s: State, i: nat, wake: Wake): Option<State> {
    if i >= |s.threads| then None else
    match s.threads[i]
    case Asking =>
      Some(SetWorker(s, i, Locking(Answer(c, s.token))).(asked := s.asked + [s.token]))
    case Locking(got) =>
      if MutexFree(s) then Some(SetWorker(s, i, Checking(got))) else None
    case Checking(got) =>
      Some(SetWorker(s, i, if s.queue == [] || s.isClosing then Pushing(got) else Sleeping(got)))
    case Sleeping(_) => None
    case Pushing(got) =>
      var t := SetWorker(s, i, Releasing);
      if s.queue != [] then Some(t)
      else if MayWake(t, wake) then Some(Notify(t.(queue := [got]), wake))
      else None
    case Releasing => Some(SetWorker(s, i, Exited))
    case Exited => None
  }

  function NewCursor(rows: seq<Row>): Option<PageCursor> {
    Some(PageCursor(rows, 0))
  }

  /** `TrinoCursor::HasData` */
  predicate HasData(k: PageCursor) {
    k.pos <= |k.rows|
  }

  function Return(s: State, ret: SqlResult): State {
    s.(main := Idle, ret := ret)
  }

  /** Starts a fetch thread and records it. */
  function Spawn(s: State): State {
    s.(threads := s.threads + [Asking])
  }

  /** `MakeRequestExecute` and `MakeRequestFetch`. */
  function ExecuteStep(c: seq<Outcome>, s: State): Option<State> {
    match s.main
    case Executing =>
      var got := Answer(c, s.token);
      var t := s.(asked := s.asked + [s.token]);
      if got.Failure? then Some(t.(main := CloseFlag, ret := Error))
      else if got.rows == [] then
        if got.next.None? then Some(Return(t.(result := Some(got)), NoData))
        else Some(t.(result := Some(got), token := got.next.value))
      else Some(t.(result := Some(got), cursor := NewCursor(got.rows),
                   main := if got.next.None? then ExecFetch else ExecToken))
    case ExecToken =>
      if s.result.Some? && s.result.value.Page? && s.result.value.next.Some?
      then Some(s.(token := s.result.value.next.value, main := ExecSpawn)) else None
    case ExecSpawn => Some(Spawn(s).(main := ExecFlag))
    case ExecFlag => Some(s.(hasAsync := true, main := ExecFetch))
    case ExecFetch =>
      if s.result.Some? && s.result.value.Page?
      then Some(Return(s.(cursor := NewCursor(s.result.value.rows)), Success)) else None
    case _ => None
  }

  /** `SwitchCursor`. */
  function SwitchStep(s: State): Option<State> {
    match s.main
    case SwitchLock =>
      if MutexFree(s) then Some(s.(main := SwitchCheck)) else None
    case SwitchCheck => Some(s.(main := if s.queue == [] then SwitchSleep else SwitchPop))
    case SwitchPop =>
      if s.queue == [] then None else Some(s.(queue := s.queue[1..], main := SwitchUnlock(s.queue[0])))
    case SwitchUnlock(got) => Some(s.(main := SwitchHandle(got)))
    case SwitchHandle(got) =>
      if got.Failure? then Some(Return(s.(cursor := None, hasAsync := false), Error))
      else if got.rows == [] then Some(Return(s.(result := Some(got)), NoData))
      else
        var t := s.(result := Some(got), cursor := Some(PageCursor(got.rows, 1)));
        Some(if got.next.None? then t.(hasAsync := false, main := Reading) else t.(main := SwitchJoin))
    case SwitchJoin =>
      if s.threads == [] then Some(s.(main := SwitchToken))
      else if s.threads[0].Exited? then Some(s.(threads := s.threads[1..], main := SwitchToken))
      else None
    case SwitchToken =>
      if s.result.Some? && s.result.value.Page? && s.result.value.next.Some?
      then Some(s.(token := s.result.value.next.value, main := SwitchSpawn)) else None
    case SwitchSpawn => Some(Spawn(s).(main := Reading))
    case _ => None
  }

  /** `FetchNextRow` around `SwitchCursor`; `readable` tells whether the row converts. */
  function FetchStep(s: State, readable: bool): Option<State> {
    match s.main
    case FetchTop =>
      if s.cursor.None? then Some(Return(s, NoData))
      else
        var k := s.cursor.value.(pos := s.cursor.value.pos + 1);
        var t := s.(cursor := Some(k));
        if HasData(k) then Some(t.(main := Reading))
        else if s.hasAsync then Some(t.(main := SwitchLock))
        else Some(Return(t, NoData))
    case Reading =>
      if s.cursor.Some? && 1 <= s.cursor.value.pos <= |s.cursor.value.rows| then
        var t := s.(visited := s.visited + [s.cursor.value.rows[s.cursor.value.pos - 1]]);
        Some(if readable then Return(t.(rowCounter := s.rowCounter + 1), Success)
             else Return(t.(failed := s.failed + 1), Error))
      else None
    case _ => None
  }

  /** `InternalClose`. */
  function CloseStep(s: State): Option<State> {
    match s.main
    case CloseFlag => Some(s.(isClosing := true, main := CloseJoin))
    case CloseJoin =>
      if s.threads == [] then Some(s.(main := CloseReset))
      else if s.threads[0].Exited? then Some(s.(threads := s.threads[1..]))
      else None
    case CloseReset =>
      Some(s.(result := None, cursor := None, main := Idle, abandoned := s.abandoned || s.cursor.Some?))
    case _ => None
  }

  predicate InExecute(m: MainPc) { m.Executing? || m.ExecToken? || m.ExecSpawn? || m.ExecFlag? || m.ExecFetch? }

  predicate InFetch(m: MainPc) { m.FetchTop? || m.Reading? }

  predicate InClose(m: MainPc) { m.CloseFlag? || m.CloseJoin? || m.CloseReset? }

  function MainStep(c: seq<Outcome>, s: State, readable: bool): Option<State> {
    if s.main.Idle? then None
    else if InExecute(s.main) then ExecuteStep(c, s)
    else if InFetch(s.main) then FetchStep(s, readable)
    else if InClose(s.main) then CloseStep(s)
    else SwitchStep(s)
  }

  /** The state after a step, or nothing when the step cannot be taken. */
  function Next(c: seq<Outcome>, s: State, step: Step): Option<State> {
    match step
    case CallExecute =>
      if s.main.Idle? && !s.executed then Some(s.(main := Executing, executed := true)) else None
    case CallFetch => if s.main.Idle? then Some(s.(main := FetchTop)) else None
    case CallClose => if s.main.Idle? then Some(s.(main := CloseFlag, ret := Success)) else None
    case Main(readable) => MainStep(c, s, readable)
    case Work(i, wake) => WorkStep(c, s, i, wake)
    case SpuriousMain => if s.main.SwitchSleep? then Some(s.(main := SwitchLock)) else None
    case SpuriousWork(i) =>
      if i < |s.threads| && s.threads[i].Sleeping? then Some(SetWorker(s, i, Locking(s.threads[i].got))) else None
  }

  /** The state after a run: any sequence of steps, that is, any interleaving. */
  function Exec(c: seq<Outcome>, s: State, run: seq<Step>): Option<State>
    decreases |run|
  {
    if run == [] then Some(s)
    else match Next(c, s, run[0])
      case None => None
      case Some(t) => Exec(c, t, run[1..])
  }

  ghost predicate Reaches(c: seq<Outcome>, s: State, t: State) {
    exists run: seq<Step> :: Exec(c, s, run) == Some(t)
  }

  ghost predicate Reachable(c: seq<Outcome>, s: State) {
    Reaches(c, Init, s)
  }
}
