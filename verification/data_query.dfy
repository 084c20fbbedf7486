/**
 `DataQuery` and `TrinoCursor` as objects. Between any two statements of the main thread the fetch
 threads may run as far as they like (`Workers`), and where the main thread blocks they run until it is
 released. Every method is a run of the step system of module Pager and is proved against the flat row
 sequence.
 */
module DataQueries {
  import opened Options
  import opened Datums
  import opened ServerChain
  import opened Pager
  import opened PagerInvariant
  import opened PagerDelivery
  import opened PagerSafety
  import opened PagerLiveness
  import opened AppBuffers
  import opened Renderer
  import opened Slots
  import opened RowReading
  import opened TrinoCursors
  import opened DataQuerySteps

  /** `ProcessConversionResult` */
  function ColumnResult(res: ConversionResult): SqlResult {
    match res
    case Done => Success
    case NoneFound => NoData
    case Failed => Error
    case _ => SuccessWithInfo
  }

  /**
   What reading a cell into a buffer reports: an error for a cell without kind, no data for a row without data,
   truncation for a text that does not fit beside its terminator, a warning for an interval buffer, else success.
   */
  ghost predicate ReportsCell(res: SqlResult, b: AppBuffer, cell: Datum) {
    && (res == Error <==> cell.Unset?)
    && (res == NoData <==> cell.RowOf? && !cell.isSet)
    && (res == SuccessWithInfo <==>
          && !cell.Unset? && !cell.Null? && !(cell.RowOf? && !cell.isSet)
          && (b.kind.Interval?
              || (Width(b.kind) == 0 && b.data.Some?
                  && (b.buflen < (if b.kind.WideText? then 2 else 1) || |CStr(Text(cell))| >= Room(b)))))
  }

  lemma ColumnReports(m: string, b: AppBuffer, cell: Datum)
    requires Fits(b, |m|)
    ensures ReportsCell(ColumnResult(ReadCell(m, b, cell).1), b, cell)
  {
    hide ReadCell, Text, CStr, Room;
    ConversionSays(m, b, cell);
  }

  class DataQuery {
    /** The answers the server will give. */
    const server: seq<Outcome>

    var executed: bool
    var token: nat
    var result: Option<Outcome>
    var cursor: TrinoCursor?
    var hasAsyncFetch: bool
    var rowCounter: nat
    var threads: seq<Worker>
    var queue: seq<Outcome>
    var isClosing: bool
    /** The main thread is among the waiters of the condition variable. */
    var mainWaits: bool
    /** The main thread holds the mutex. */
    var mainInside: bool

    ghost var main: MainPc
    ghost var ret: SqlResult
    ghost var visited: seq<Row>
    ghost var asked: seq<nat>
    ghost var failed: nat
    ghost var abandoned: bool

    ghost function Now(): State
      reads this, cursor
    {
      State(main, executed, token, result, if cursor == null then None else Some(cursor.View()), hasAsyncFetch,
            rowCounter, threads, queue, isClosing, ret, visited, asked, failed, abandoned)
    }

    ghost predicate Running()
      reads this, cursor
    {
      && Inv(server, Now())
      && (cursor != null ==> cursor.Valid())
      && (mainWaits <==> main.SwitchSleep?)
      && (mainInside <==> MainHolds(main))
    }

    /** Between two calls. */
    ghost predicate Valid()
      reads this, cursor
    {
      Running() && main.Idle?
    }

    constructor (server: seq<Outcome>)
      requires IsChain(server)
      ensures Valid() && Now() == Init && this.server == server
    {
      this.server := server;
      executed, token, result, cursor, hasAsyncFetch, rowCounter := false, 0, None, null, false, 0;
      threads, queue, isClosing, mainWaits, mainInside := [], [], false, false, false;
      main, ret, visited, asked, failed, abandoned := Idle, Success, [], [], 0, false;
      new;
      InitInv(server);
    }

    /** What the fetch threads leave alone. */
    ghost predicate OnlyWorkers(s: State, t: State) {
      && t == s.(threads := t.threads, queue := t.queue, asked := t.asked, main := t.main)
      && (t.main == s.main || (s.main.SwitchSleep? && t.main.SwitchLock?))
    }

    /** `AsyncFetchOnePage`: the push with its notification. */
    method PushPage(ghost wake: Wake)
      requires |threads| == 1 && threads[0].Pushing? && WorkStep(server, Now(), 0, wake).Some?
      requires mainWaits <==> main.SwitchSleep?
      modifies this`threads, this`queue, this`main, this`mainWaits
      ensures Now() == old(WorkStep(server, Now(), 0, wake).value)
      ensures mainWaits <==> main.SwitchSleep?
    {
      hide MutexFree, WorkStep, MayWake;
      PushStep(server, Now(), wake);
      var wakesMain := queue == [] && mainWaits;
      if queue == [] {
        queue := [threads[0].got];
      }
      threads := threads[0 := Releasing];
      if wakesMain {
        mainWaits := false;
        main := SwitchLock;
      }
    }

    /** `AsyncFetchOnePage`: its other statements. */
    method MoveOn(ghost wake: Wake)
      requires |threads| == 1 && !threads[0].Pushing? && WorkStep(server, Now(), 0, wake).Some?
      modifies this`threads, this`asked
      ensures Now() == old(WorkStep(server, Now(), 0, wake).value)
    {
      hide MutexFree, WorkStep, MovedOn;
      StatementStep(server, Now(), wake);
      if threads[0].Asking? {
        asked := asked + [token];
      }
      threads := threads[0 := MovedOn(threads[0], Answer(server, token), queue == [] || isClosing)];
    }

    /** A fetch thread that can run takes one statement. */
    method StepThread(ghost start: State)
      requires Running() && Reaches(server, start, Now())
      requires threads != [] && !threads[0].Exited? && !(threads[0].Locking? && mainInside)
      modifies this`threads, this`queue, this`asked, this`main, this`mainWaits
      ensures Running() && Reaches(server, start, Now())
      ensures OnlyWorkers(old(Now()), Now())
      ensures |threads| == old(|threads|) == 1 && WorkersRank(threads) < old(WorkersRank(threads))
    {
      hide Inv, Measure, WorkStep, Next, WorkersRank, Reaches;
      ghost var s := Now();
      OneThreadAwake(server, s);
      ghost var wake := WorkerReady(server, s);
      if threads[0].Pushing? { PushPage(wake); } else { MoveOn(wake); }
      WorkIsNext(server, s, wake);
      Advance(server, start, s, Work(0, wake), Now());
      WorkFrame(server, s, wake);
      RankDecreases(server, s, wake);
    }

    /** The fetch threads run as far as the scheduler lets them. */
    method Workers(ghost start: State)
      requires Running() && Reaches(server, start, Now())
      modifies this`threads, this`queue, this`asked, this`main, this`mainWaits
      ensures Running() && Reaches(server, start, Now())
      ensures OnlyWorkers(old(Now()), Now())
      ensures WorkersRank(threads) <= old(WorkersRank(threads))
      ensures |threads| == |old(threads)|
    {
      hide Inv, WorkersRank, Reaches;
      var go: bool := *;
      while go && threads != [] && !threads[0].Exited? && !(threads[0].Locking? && mainInside)
        invariant Running() && Reaches(server, start, Now())
        invariant OnlyWorkers(old(Now()), Now())
        invariant WorkersRank(threads) <= old(WorkersRank(threads))
        invariant |threads| == |old(threads)|
        decreases WorkersRank(threads)
      {
        StepThread(start);
        go := *;
      }
    }

    /** The statement the main thread has just executed: it extends the run. */
    ghost predicate Follows(start: State)
      reads this, cursor
    {
      Running() && Reaches(server, start, Now())
    }

    /** `unique_lock`: blocks while a fetch thread holds the mutex. */
    method Lock(ghost start: State)
      requires Follows(start) && main.SwitchLock?
      modifies this`threads, this`queue, this`asked, this`main, this`mainWaits, this`mainInside
      ensures Follows(start) && main.SwitchCheck?
      ensures Now() == old(Now()).(threads := threads, queue := queue, asked := asked, main := main)
      ensures |threads| == |old(threads)| && WorkersRank(threads) <= old(WorkersRank(threads))
    {
      hide Inv, WorkersRank, Reaches, Next;
      while threads != [] && Holds(threads[0])
        invariant Follows(start) && main.SwitchLock?
        invariant Now() == old(Now()).(threads := threads, queue := queue, asked := asked)
        invariant |threads| == |old(threads)| && WorkersRank(threads) <= old(WorkersRank(threads))
        decreases WorkersRank(threads)
      {
        StepThread(start);
      }
      ghost var s := Now();
      AtMostOneThread(server, s);
      mainInside, main := true, SwitchCheck;
      LockStep(server, s);
      Advance(server, start, s, Main(true), Now());
    }

    /** The page behind the cursor is not the empty page that ends the sequence. */
    predicate PageComes()
      reads this
    {
      result.Some? && result.value.Page? && result.value.rows != []
    }

    /** Up to the popped outcome: lock, wait for the condition variable, take the page, unlock. */
    method WaitForPage(ghost start: State)
      requires Follows(start) && main.SwitchLock? && PageComes()
      modifies this`threads, this`queue, this`asked, this`main, this`mainWaits, this`mainInside
      ensures Follows(start) && main.SwitchPop?
      ensures Now() == old(Now()).(threads := threads, queue := queue, asked := asked, main := main)
    {
      hide Inv, WorkersRank, Reaches, Next, InFlight;
      Lock(start);
      while queue == []
        invariant Follows(start) && main.SwitchCheck? && PageComes()
        invariant Now() == old(Now()).(threads := threads, queue := queue, asked := asked, main := main)
        decreases WorkersRank(threads)
      {
        Sleep(start);
        Lock(start);
      }
      ghost var s := Now();
      main := SwitchPop;
      CheckStep(server, s);
      Advance(server, start, s, Main(true), Now());
    }

    /** `cv_.wait`: gives the mutex back and sleeps until a fetch thread notifies. */
    method Sleep(ghost start: State)
      requires Follows(start) && main.SwitchCheck? && PageComes() && queue == []
      modifies this`threads, this`queue, this`asked, this`main, this`mainWaits, this`mainInside
      ensures Follows(start) && main.SwitchLock?
      ensures Now() == old(Now()).(threads := threads, queue := queue, asked := asked, main := main)
      ensures WorkersRank(threads) < old(WorkersRank(threads))
    {
      hide Inv, WorkersRank, Reaches, Next, InFlight;
      ghost var s := Now();
      mainInside, mainWaits, main := false, true, SwitchSleep;
      CheckStep(server, s);
      Advance(server, start, s, Main(true), Now());
      while mainWaits
        invariant Follows(start) && PageComes() && (main.SwitchSleep? || main.SwitchLock?)
        invariant Now() == s.(threads := threads, queue := queue, asked := asked, main := main)
        invariant WorkersRank(threads) <= WorkersRank(s.threads)
        invariant !mainWaits ==> WorkersRank(threads) < WorkersRank(s.threads)
        decreases WorkersRank(threads)
      {
        SomeoneComes(server, Now());
        StepThread(start);
      }
    }

    method PopPage(ghost start: State) returns (outcome: Outcome)
      requires Follows(start) && main.SwitchPop?
      modifies this`queue, this`main
      ensures Follows(start) && main == SwitchUnlock(outcome)
      ensures Now() == old(Now()).(queue := queue, main := main)
    {
      hide Inv, Reaches, Next;
      ghost var s := Now();
      PopHasPage(server, s);
      outcome := queue[0];
      queue := queue[1..];
      main := SwitchUnlock(outcome);
      PopStep(server, s);
      Advance(server, start, s, Main(true), Now());
    }

    method Unlock(ghost start: State)
      requires Follows(start) && main.SwitchUnlock?
      modifies this`main, this`mainInside
      ensures Follows(start) && main == SwitchHandle(old(main).got)
      ensures Now() == old(Now()).(main := main)
    {
      hide Inv, Reaches, Next;
      ghost var s := Now();
      mainInside, main := false, SwitchHandle(main.got);
      UnlockStep(server, s);
      Advance(server, start, s, Main(true), Now());
    }

    method TakePage(ghost start: State) returns (outcome: Outcome)
      requires Follows(start) && main.SwitchLock? && PageComes()
      modifies this`threads, this`queue, this`asked, this`main, this`mainWaits, this`mainInside
      ensures Follows(start) && main == SwitchHandle(outcome)
      ensures Now() == old(Now()).(threads := threads, queue := queue, asked := asked, main := main)
    {
      hide Inv, WorkersRank, Reaches;
      WaitForPage(start);
      outcome := PopPage(start);
      Workers(start);
      Unlock(start);
    }

    // ---- The rest of SwitchCursor. ----

    /** What to do with the popped outcome. */
    method TakeOutcome(outcome: Outcome)
      modifies this`result, this`cursor, this`hasAsyncFetch, this`main, this`ret
      ensures Now() == Handled(old(Now()), outcome)
      ensures cursor == old(cursor) || cursor == null || (fresh(cursor) && cursor.Valid())
    {
      if outcome.Failure? {
        cursor, hasAsyncFetch := null, false;
        main, ret := Idle, Error;
        return;
      }
      result := Some(outcome);
      if outcome.rows == [] {
        main, ret := Idle, NoData;
        return;
      }
      cursor := new TrinoCursor(outcome.rows);
      var _ := cursor.Increment();
      if outcome.next.None? {
        hasAsyncFetch := false;
        main := Reading;
      } else {
        main := SwitchJoin;
      }
    }

    method HandleOutcome(ghost start: State, outcome: Outcome) returns (res: SqlResult)
      requires Follows(start) && main == SwitchHandle(outcome)
      modifies this`result, this`cursor, this`hasAsyncFetch, this`main, this`ret
      ensures Follows(start)
      ensures Now() == Handled(old(Now()), outcome)
      ensures res == if main.Idle? then ret else Success
      ensures cursor == old(cursor) || cursor == null || fresh(cursor)
    {
      hide Inv, Reaches, Next, Handled;
      ghost var s := Now();
      HandleStep(server, s);
      HandledFrame(s, outcome);
      TakeOutcome(outcome);
      Advance(server, start, s, Main(true), Now());
      res := if outcome.Failure? then Error else if outcome.rows == [] then NoData else Success;
    }

    /** `join`: blocks until the thread has ended. */
    method Join(ghost start: State)
      requires Follows(start) && (main.SwitchJoin? || main.CloseJoin?) && threads != []
      modifies this`threads, this`queue, this`asked, this`main, this`mainWaits
      ensures Follows(start) && threads != [] && threads[0].Exited?
      ensures Now() == old(Now()).(threads := threads, queue := queue, asked := asked)
      ensures |threads| == |old(threads)|
    {
      hide Inv, WorkersRank, Reaches;
      while !threads[0].Exited?
        invariant Follows(start) && (main.SwitchJoin? || main.CloseJoin?) && threads != []
        invariant Now() == old(Now()).(threads := threads, queue := queue, asked := asked)
        invariant |threads| == |old(threads)|
        decreases WorkersRank(threads)
      {
        StepThread(start);
      }
    }

    /** Joins the thread of the page just taken. */
    method PopThread(ghost start: State)
      requires Follows(start) && main.SwitchJoin?
      modifies this`threads, this`queue, this`asked, this`main, this`mainWaits
      ensures Follows(start) && main.SwitchToken?
      ensures Now() == old(Now()).(threads := threads, queue := queue, asked := asked, main := main)
    {
      hide Inv, Reaches, Next;
      if threads != [] {
        Join(start);
      }
      ghost var s := Now();
      JoinStep(server, s);
      if threads != [] {
        threads := threads[1..];
      }
      main := SwitchToken;
      Advance(server, start, s, Main(true), Now());
    }

    method SetNextToken(ghost start: State)
      requires Follows(start) && main.SwitchToken?
      modifies this`token, this`main
      ensures Follows(start) && main.SwitchSpawn?
      ensures Now() == old(Now()).(token := token, main := main)
    {
      hide Inv, Reaches, Next;
      ghost var s := Now();
      TokenStep(server, s);
      token, main := result.value.next.value, SwitchSpawn;
      Advance(server, start, s, Main(true), Now());
    }

    method StartThread(ghost start: State)
      requires Follows(start) && main.SwitchSpawn?
      modifies this`threads, this`main
      ensures Follows(start) && main.Reading?
      ensures Now() == old(Now()).(threads := threads, main := main)
    {
      hide Inv, Reaches, Next;
      ghost var s := Now();
      SpawnStep(server, s);
      threads, main := threads + [Asking], Reading;
      Advance(server, start, s, Main(true), Now());
    }

    /** Starts the thread that asks for the page after the one just taken. */
    method NextThread(ghost start: State)
      requires Follows(start) && main.SwitchJoin?
      modifies this`threads, this`queue, this`asked, this`main, this`mainWaits, this`token
      ensures Follows(start) && main.Reading?
      ensures Now() == old(Now()).(threads := threads, queue := queue, asked := asked, token := token, main := main)
    {
      hide Inv, Reaches;
      PopThread(start);
      SetNextToken(start);
      StartThread(start);
    }

    /** `SwitchCursor`: from the last row of a page to the first of the next, if there is one. */
    method SwitchCursor(ghost start: State) returns (res: SqlResult)
      requires Follows(start) && main.SwitchLock? && PageComes()
      modifies this
      ensures Follows(start)
      ensures visited == old(visited) && rowCounter == old(rowCounter) && failed == old(failed)
      ensures if main.Idle? then Done(res) else main.Reading? && res == Success && PageComes()
      ensures cursor == old(cursor) || cursor == null || fresh(cursor)
    {
      hide Inv, Reaches, Next, TailEnd, Flat, Handled;
      var outcome := TakePage(start);
      Workers(start);
      ghost var s := Now();
      res := HandleOutcome(start, outcome);
      HandledFrame(s, outcome);
      if res != Success {
        HandledDone(server, s);
      } else if outcome.next.Some? {
        NextThread(start);
      }
    }

    /** The end of the sequence is a failure that has not been reported yet. */
    ghost predicate Failing()
      reads this
    {
      cursor != null && TailEnd(server, FirstPage(server, 0)).Failed?
    }

    /** A call returned `res` without a row, and rightly so. */
    ghost predicate Done(res: SqlResult)
      reads this
    {
      && ret == res && visited == Flat(server) && !Failing()
      && res == (if TailEnd(server, FirstPage(server, 0)).Failed? then Error else NoData)
    }

    // ---- FetchNextRow. ----

    /** The row sequence not handed out yet. */
    ghost function Left(): seq<Row>
      reads this
    {
      if cursor == null || |visited| > |Flat(server)| then [] else Flat(server)[|visited|..]
    }

    /** The next fetch will not wait for a page that never comes. */
    predicate Live()
      reads this
    {
      cursor != null && hasAsyncFetch ==> PageComes()
    }

    /** That is not more than has to be asked: any other fetch is called behind the empty page and never returns. */
    lemma LiveIff()
      requires Valid()
      ensures Live() <==> !Drained(server, Now())
    {
      hide Inv;
      if cursor != null { DrainedIff(server, Now()); }
    }

    /** `n` further fetches all return. */
    ghost predicate Serves(n: nat)
      reads this
    {
      n == 0 || cursor == null || !EmptyLaterPage(server) || (Live() && n <= |Left()| + 1)
    }

    lemma ServesLive(n: nat)
      requires Valid() && n > 0 && Serves(n)
      ensures Live()
    {
      hide Inv;
      if cursor != null && hasAsyncFetch && !EmptyLaterPage(server) {
        AlwaysLive(server, Now());
      }
    }

    /** `Increment`, and what follows from it. */
    method Step(ghost start: State) returns (here: bool)
      requires Follows(start) && main.FetchTop? && cursor != null
      modifies this`main, this`ret, cursor
      ensures Follows(start) && Now() == Topped(old(Now())) && here == main.Reading?
      ensures hasAsyncFetch && !here ==> main.SwitchLock?
    {
      hide Inv, Reaches, Next;
      ghost var s := Now();
      TopStep(server, s);
      here := cursor.Increment();
      if here {
        main := Reading;
      } else if hasAsyncFetch {
        main := SwitchLock;
      } else {
        main, ret := Idle, NoData;
      }
      Advance(server, start, s, Main(true), Now());
    }

    /** To the next row of an open cursor, if there is one. */
    method Position(ghost start: State) returns (res: SqlResult)
      requires Follows(start) && main.FetchTop? && cursor != null && Live()
      modifies this, cursor
      ensures Follows(start)
      ensures visited == old(visited) && rowCounter == old(rowCounter) && failed == old(failed)
      ensures if main.Idle? then Done(res) else main.Reading? && res == Success && Live()
      ensures cursor == old(cursor) || cursor == null || fresh(cursor)
    {
      hide Inv, Reaches, Next, TailEnd, Flat;
      ghost var s := Now();
      if s.main.FetchTop? && Topped(s).main.Idle? { ToppedDone(server, s); }
      var here := Step(start);
      if here {
        res := Success;
      } else if hasAsyncFetch {
        res := SwitchCursor(start);
      } else {
        res := NoData;
      }
    }

    /** The statements after the column loop. */
    method CountRow(ok: bool, ghost row: Row)
      modifies this`main, this`ret, this`visited, this`rowCounter, this`failed
      ensures Now() == RowRead(old(Now()), ok, row)
    {
      if ok {
        rowCounter := rowCounter + 1;
      } else {
        failed := failed + 1;
      }
      main, ret, visited := Idle, if ok then Success else Error, visited + [row];
    }

    method FinishRow(ghost start: State, ok: bool, ghost row: Row) returns (res: SqlResult)
      requires Follows(start) && main.Reading? && |visited| < |Flat(server)| && Flat(server)[|visited|] == row
      modifies this`main, this`ret, this`visited, this`rowCounter, this`failed
      ensures Follows(start) && main.Idle? && cursor != null
      ensures visited == old(visited) + [row]
      ensures res == if ok then Success else Error
      ensures rowCounter == old(rowCounter) + if ok then 1 else 0
    {
      hide Inv, Reaches, Next, Flat;
      ghost var s := Now();
      CurrentIsNext(server, s);
      ReadStep(server, s, ok);
      CountRow(ok, row);
      Advance(server, start, s, Main(ok), Now());
      res := if ok then Success else Error;
    }

    /** The column loop on the current row. */
    method ReadCurrent(bindings: Bindings, mem: array<char>) returns (ok: bool, ghost row: Row)
      requires Running() && main.Reading? && AllFit(bindings, mem.Length)
      modifies mem
      ensures |visited| < |Flat(server)| && Flat(server)[|visited|] == row
      ensures (mem[..], ok) == ReadRow(old(mem[..]), bindings, row, 1)
    {
      hide Inv, Flat, ReadRow;
      CurrentIsNext(server, Now());
      row := cursor.rowVec[cursor.rowIndex];
      ok := ReadColumns(mem, bindings, cursor.rowVec[cursor.rowIndex]);
    }

    /** `FetchNextRow` after its call. */
    method FetchHere(ghost start: State, bindings: Bindings, mem: array<char>) returns (res: SqlResult)
      requires Follows(start) && main.FetchTop? && cursor != null && Live() && AllFit(bindings, mem.Length)
      modifies this, cursor, mem
      ensures Follows(start) && main.Idle?
      ensures if |visited| == |old(visited)| then Done(res) && mem[..] == old(mem[..]) && rowCounter == old(rowCounter)
        else
          && |old(visited)| < |Flat(server)| && cursor != null && Live()
          && var row := Flat(server)[|old(visited)|];
          && visited == old(visited) + [row]
          && (mem[..], res.Success?) == ReadRow(old(mem[..]), bindings, row, 1)
          && (res.Success? || res.Error?)
          && rowCounter == old(rowCounter) + if res.Success? then 1 else 0
      ensures cursor == old(cursor) || cursor == null || fresh(cursor)
    {
      hide Inv, Reaches, Next, TailEnd, Flat, ReadRow, WorkersRank;
      res := Position(start);
      if res == Success {
        Workers(start);
        var ok, row := ReadCurrent(bindings, mem);
        res := FinishRow(start, ok, row);
      }
    }

    /** `FetchNextRow` without a cursor. */
    method FetchNowhere(ghost start: State) returns (res: SqlResult)
      requires Follows(start) && main.FetchTop? && cursor == null
      modifies this`main, this`ret
      ensures Follows(start) && main.Idle? && res == NoData
    {
      hide Inv, Reaches, Next;
      ghost var s := Now();
      TopStep(server, s);
      main, ret, res := Idle, NoData, NoData;
      Advance(server, start, s, Main(true), Now());
    }

    method BeginFetch() returns (ghost start: State)
      requires Valid()
      modifies this`threads, this`queue, this`asked, this`main, this`mainWaits
      ensures start == old(Now()) && Follows(start) && main.FetchTop?
      ensures visited <= Flat(server)
    {
      hide Inv, Reaches, Next, Flat, WorkersRank;
      start := Now();
      VisitedPrefix(server, start);
      Stay(server, start);
      CallFetchStep(server, start);
      main := FetchTop;
      Advance(server, start, start, CallFetch, Now());
      Workers(start);
    }

    /**
     `FetchNextRow` hands out the next row of the flat sequence, whatever the fetch threads do
     meanwhile; with no row left it reports the end of data, or the failure that ended the sequence.
     */
    method FetchNextRow(bindings: Bindings, mem: array<char>) returns (res: SqlResult)
      requires Valid() && Live() && AllFit(bindings, mem.Length)
      modifies this, cursor, mem
      ensures Valid() && Reaches(server, old(Now()), Now())
      ensures old(Left()) == [] ==>
        && res == (if old(Failing()) then Error else NoData) && !Failing()
        && mem[..] == old(mem[..]) && visited == old(visited) && Left() == [] && rowCounter == old(rowCounter)
      ensures old(Left()) != [] ==>
        && visited == old(visited) + [old(Left())[0]] && Left() == old(Left())[1..]
        && Live() && cursor != null
        && (mem[..], res.Success?) == ReadRow(old(mem[..]), bindings, old(Left())[0], 1)
        && (res.Success? || res.Error?)
        && rowCounter == old(rowCounter) + if res.Success? then 1 else 0
      ensures cursor == old(cursor) || cursor == null || fresh(cursor)
      ensures old(cursor) == null ==> cursor == null
    {
      hide Inv, Reaches, Next, TailEnd, Flat, ReadRow, Exec;
      ghost var start := BeginFetch();
      if cursor == null {
        res := FetchNowhere(start);
      } else {
        res := FetchHere(start, bindings, mem);
      }
    }

    // ---- Close. ----

    /** Joins the thread at the front of the queue. */
    method JoinFront(ghost start: State)
      requires Follows(start) && main.CloseJoin? && threads != []
      modifies this`threads, this`queue, this`asked, this`main, this`mainWaits
      ensures Follows(start) && |threads| < |old(threads)|
      ensures Now() == old(Now()).(threads := threads, queue := queue, asked := asked)
    {
      hide Inv, Reaches, Next;
      Join(start);
      ghost var s := Now();
      CloseJoinStep(server, s);
      threads := threads[1..];
      Advance(server, start, s, Main(true), Now());
    }

    /** Joins every thread. */
    method JoinAll(ghost start: State)
      requires Follows(start) && main.CloseFlag?
      modifies this`threads, this`queue, this`asked, this`main, this`mainWaits, this`isClosing
      ensures Follows(start) && main.CloseReset? && threads == []
      ensures Now() == old(Now()).(threads := [], queue := queue, asked := asked, main := main, isClosing := true)
    {
      hide Inv, Reaches, Next;
      ghost var s := Now();
      CloseFlagStep(server, s);
      isClosing, main := true, CloseJoin;
      Advance(server, start, s, Main(true), Now());
      while threads != []
        invariant Follows(start) && main.CloseJoin?
        invariant Now() == old(Now()).(threads := threads, queue := queue, asked := asked, main := main, isClosing := true)
        decreases |threads|
      {
        JoinFront(start);
      }
      s := Now();
      CloseJoinStep(server, s);
      main := CloseReset;
      Advance(server, start, s, Main(true), Now());
    }

    method InternalClose(ghost start: State)
      requires Follows(start) && main.CloseFlag?
      modifies this
      ensures Follows(start) && main.Idle?
      ensures threads == [] && result.None? && cursor == null
      ensures visited == old(visited) && ret == old(ret) && rowCounter == old(rowCounter)
      ensures abandoned == (old(abandoned) || old(cursor) != null)
    {
      hide Inv, Reaches, Next;
      JoinAll(start);
      ghost var s := Now();
      CloseResetStep(server, s);
      abandoned := abandoned || cursor != null;
      result, cursor, main := None, null, Idle;
      Advance(server, start, s, Main(true), Now());
    }

    /** `Close` ends, joins the fetch thread and leaves nothing to fetch. */
    method Close() returns (res: SqlResult)
      requires Valid()
      modifies this
      ensures Valid() && Reaches(server, old(Now()), Now()) && res == Success
      ensures threads == [] && result.None? && cursor == null && Left() == []
      ensures visited == old(visited) && rowCounter == old(rowCounter)
    {
      hide Inv, Reaches, Next, WorkersRank;
      ghost var start := Now();
      Stay(server, start);
      CallCloseStep(server, start);
      main, ret := CloseFlag, Success;
      Advance(server, start, start, CallClose, Now());
      Workers(start);
      InternalClose(start);
      res := Success;
    }

    // ---- Execute. ----

    /** Takes one answer: what `Asked` says. */
    method TakeAnswer(outcome: Outcome)
      requires outcome == Answer(server, token) && cursor == null
      modifies this`asked, this`main, this`ret, this`result, this`token, this`cursor
      ensures Now() == Asked(old(Now()), outcome)
      ensures cursor != null ==> fresh(cursor) && cursor.Valid()
    {
      hide Answer;
      asked := asked + [token];
      if outcome.Failure? {
        main, ret := CloseFlag, Error;
        return;
      }
      result := Some(outcome);
      if outcome.rows != [] {
        cursor := new TrinoCursor(outcome.rows);
        main := if outcome.next.None? then ExecFetch else ExecToken;
      } else if outcome.next.None? {
        main, ret := Idle, NoData;
      } else {
        token := outcome.next.value;
      }
    }

    /** Asks for pages until one has rows. */
    method FirstRows(ghost start: State) returns (res: SqlResult)
      requires Follows(start) && main.Executing? && !abandoned && visited == []
      modifies this
      ensures Follows(start) && visited == [] && !abandoned
      ensures Flat(server) != [] ==>
        && res == Success && result.Some? && result.value.Page?
        && if result.value.next.None? then main.ExecFetch? else main.ExecToken?
      ensures Flat(server) == [] ==>
        main.Idle? && cursor == null && res == if TailEnd(server, FirstPage(server, 0)).Failed? then Error else NoData
      ensures cursor == null || fresh(cursor)
    {
      hide Inv, Reaches, Next, Flat, TailEnd, Answer, Asked;
      while true
        invariant Follows(start) && main.Executing? && !abandoned && visited == []
        decreases |server| - token
      {
        ghost var s := Now();
        AskStep(server, s);
        FirstAnswer(server, s);
        var outcome := Answer(server, token);
        AskedFrame(s, outcome);
        TakeAnswer(outcome);
        Advance(server, start, s, Main(true), Now());
        if outcome.Failure? {
          InternalClose(start);
          return Error;
        }
        if outcome.rows != [] {
          return Success;
        }
        if outcome.next.None? {
          return NoData;
        }
      }
    }

    method FirstToken(ghost start: State)
      requires Follows(start) && main.ExecToken?
      modifies this`token, this`main
      ensures Follows(start) && main.ExecSpawn?
      ensures Now() == old(Now()).(token := token, main := main)
    {
      hide Inv, Reaches, Next;
      ghost var s := Now();
      ExecTokenStep(server, s);
      token, main := result.value.next.value, ExecSpawn;
      Advance(server, start, s, Main(true), Now());
    }

    /** Starts the first fetch thread. */
    method FirstThread(ghost start: State)
      requires Follows(start) && main.ExecSpawn?
      modifies this`threads, this`hasAsyncFetch, this`main
      ensures Follows(start) && main.ExecFetch?
      ensures Now() == old(Now()).(threads := threads, hasAsync := true, main := main)
    {
      hide Inv, Reaches, Next;
      ghost var s := Now();
      ExecSpawnStep(server, s);
      threads, main := threads + [Asking], ExecFlag;
      Advance(server, start, s, Main(true), Now());
      s := Now();
      ExecFlagStep(server, s);
      hasAsyncFetch, main := true, ExecFetch;
      Advance(server, start, s, Main(true), Now());
    }

    /** `MakeRequestFetch`: a new cursor on the first page. */
    method MakeRequestFetch(ghost start: State) returns (res: SqlResult)
      requires Follows(start) && main.ExecFetch?
      modifies this`cursor, this`main, this`ret
      ensures Follows(start) && main.Idle? && res == Success
      ensures cursor != null && fresh(cursor) && PageComes()
      ensures visited == old(visited)
    {
      hide Inv, Reaches, Next;
      ghost var s := Now();
      ExecFetchStep(server, s);
      cursor := new TrinoCursor(result.value.rows);
      main, ret, res := Idle, Success, Success;
      Advance(server, start, s, Main(true), Now());
    }

    /**
     `Execute`: everything is still to be fetched, or there is nothing to fetch and the result says
     whether that is because a request failed.
     */
    method Execute() returns (res: SqlResult)
      requires Valid() && !executed
      modifies this
      ensures Valid() && Reaches(server, old(Now()), Now()) && Live()
      ensures Left() == Flat(server) && visited == []
      ensures res == if Flat(server) != [] then Success
                     else if TailEnd(server, FirstPage(server, 0)).Failed? then Error else NoData
      ensures cursor == null || fresh(cursor)
    {
      hide Inv, Reaches, Next, Flat, TailEnd;
      ghost var start := Now();
      Stay(server, start);
      BeforeExecute(server, start);
      CallExecuteStep(server, start);
      main, executed := Executing, true;
      Advance(server, start, start, CallExecute, Now());
      res := FirstRows(start);
      if res == Success {
        if result.value.next.Some? {
          FirstToken(start);
          FirstThread(start);
          Workers(start);
        }
        res := MakeRequestFetch(start);
      }
    }

    // ---- What the application can ask between two fetches. ----

    /** `RowNumber` counts over all pages, rows that could not be converted excepted. */
    method RowNumber() returns (n: nat)
      requires Valid()
      ensures n == PagerSafety.RowNumber(Now())
      ensures cursor != null && HasData(cursor.View()) ==> n + failed == |visited|
    {
      hide Shape, IsChain;
      if cursor == null || cursor.curPos > |cursor.rowVec| {
        return 0;
      }
      NumberIsGlobal(server, Now());
      n := rowCounter;
    }

    /** `GetColumn` reads a column of the row fetched last (of the first row when none was fetched). */
    method GetColumn(columnIdx: nat, b: AppBuffer, mem: array<char>) returns (res: SqlResult)
      requires Valid() && Fits(b, mem.Length)
      modifies mem
      ensures cursor == null ==> res == NoData && mem[..] == old(mem[..])
      ensures cursor != null && !HasData(cursor.View()) ==> res == Error && mem[..] == old(mem[..])
      ensures cursor != null && HasData(cursor.View()) ==>
        && (cursor.curPos == 0 ==> |visited| < |Flat(server)|) && (cursor.curPos > 0 ==> |visited| > 0)
        && var row := if cursor.curPos == 0 then Flat(server)[|visited|] else visited[|visited| - 1];
           if 1 <= columnIdx <= |row| then
             && mem[..] == ReadCell(old(mem[..]), b, row[columnIdx - 1]).0
             && (Apart(b) ==> HoldsCell(mem[..], b, row[columnIdx - 1]))
             && ReportsCell(res, b, row[columnIdx - 1])
           else mem[..] == old(mem[..]) && res == Error
    {
      hide Inv, Flat, ReadCell, HoldsCell, ReportsCell, ColumnResult, Apart;
      if cursor == null {
        return NoData;
      }
      if cursor.curPos > |cursor.rowVec| {
        return Error;
      }
      StandsOnLastRow(server, Now());
      var row := cursor.rowVec[cursor.rowIndex];
      if columnIdx < 1 || columnIdx > |row| {
        return Error;
      }
      if Apart(b) { PutHolds(mem[..], b, row[columnIdx - 1]); }
      ColumnReports(mem[..], b, row[columnIdx - 1]);
      var converted := ParseDatum(row[columnIdx - 1], mem, b);
      res := ColumnResult(converted);
    }

    /** `Cancel`; `accepted` is whether the server cancels the query or has finished it already. */
    method Cancel(accepted: bool) returns (res: SqlResult)
      requires Valid()
      modifies this
      ensures Valid() && Reaches(server, old(Now()), Now())
      ensures visited == old(visited) && rowCounter == old(rowCounter)
      ensures if old(hasAsyncFetch && (result.None? || !accepted))
              then res == Error && Now() == old(Now())
              else res == Success && threads == [] && result.None? && Left() == []
    {
      hide Inv, Reaches, Next;
      if hasAsyncFetch && (result.None? || !accepted) {
        Stay(server, Now());
        return Error;
      }
      res := Close();
    }

    /** The destructor: it closes only when there is a result, and still no thread is left behind. */
    method Destroy()
      requires Valid()
      modifies this
      ensures Valid() && Reaches(server, old(Now()), Now())
      ensures threads == [] && result.None?
    {
      hide Inv, Reaches, Next;
      if result.Some? {
        var _ := Close();
      } else {
        NoOrphan(server, Now());
        Stay(server, Now());
      }
    }
  }
}
