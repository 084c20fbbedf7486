/**
 Every step keeps the data part of the invariant: which rows were visited and which tokens were asked for. With
 the control part this makes the invariant hold in every run.
 */
module PagerDelivery {
  import opened Options
  import opened Datums
  import opened ServerChain
  import opened Pager
  import opened PagerInvariant

  /** Steps that visit no row and stay on the same page. */
  lemma SameRows(c: seq<Outcome>, s: State, t: State)
    requires t.token < |c| && Data(c, s)
    requires t.visited == s.visited && t.abandoned == s.abandoned && t.executed == s.executed
    requires t.rowCounter == s.rowCounter && t.failed == s.failed
    requires t.main.Executing? == s.main.Executing?
    requires t.main.Executing? ==> t.token == s.token
    requires s.cursor.Some? == t.cursor.Some?
    requires s.cursor.Some? ==>
      PageIndex(s) == PageIndex(t) && Seen(s) == Seen(t) && s.cursor.value.rows == t.cursor.value.rows
    requires t.asked == Iota(if TokenSent(t) then t.token + 1 else t.token)
    ensures Data(c, t)
  {
  }

  /** The step that visits a row. */
  lemma OneMoreRow(c: seq<Outcome>, s: State, t: State)
    requires Data(c, s) && t.token == s.token
    requires s.cursor.Some? && t.cursor == s.cursor && Seen(s) < |s.cursor.value.rows|
    requires t.visited == s.visited + [s.cursor.value.rows[Seen(s)]] && !t.abandoned && t.executed == s.executed
    requires t.rowCounter + t.failed == s.rowCounter + s.failed + 1
    requires PageIndex(s) == PageIndex(t) && Seen(t) == Seen(s) + 1
    requires t.asked == Iota(if TokenSent(t) then t.token + 1 else t.token)
    ensures Data(c, t)
  {
    hide OnSpine, RowsBefore, Iota;
    var rows := s.cursor.value.rows;
    assert rows[..Seen(t)] == rows[..Seen(s)] + [rows[Seen(s)]];
  }

  /** The step from the last row of one page to the first of the next. */
  lemma NextPage(c: seq<Outcome>, s: State, t: State)
    requires IsChain(c) && Data(c, s) && t.token == s.token
    requires s.cursor.Some? && t.cursor.Some? && Seen(s) == |s.cursor.value.rows| && Seen(t) == 0
    requires t.visited == s.visited && !t.abandoned
    requires t.rowCounter == s.rowCounter && t.failed == s.failed
    requires HasNext(c, PageIndex(s)) && PageIndex(t) == PageIndex(s) + 1
    requires IsPage(c, PageIndex(t)) && t.cursor.value.rows == c[PageIndex(t)].rows
    requires t.asked == Iota(if TokenSent(t) then t.token + 1 else t.token)
    ensures Data(c, t)
  {
    SpineStep(c, PageIndex(s));
  }

  /** A switch that finds no page ends the sequence: everything was visited. */
  lemma NoMorePages(c: seq<Outcome>, s: State)
    requires IsChain(c) && Data(c, s)
    requires s.cursor.Some? && Seen(s) == |s.cursor.value.rows| && HasNext(c, PageIndex(s))
    requires c[PageIndex(s) + 1].Failure? || c[PageIndex(s) + 1].rows == []
    ensures s.visited == Flat(c)
    ensures c[PageIndex(s) + 1].Page? <==> EmptyLaterPage(c)
  {
    SpineStep(c, PageIndex(s));
  }

  /** Past the last row of a page without successor everything was visited. */
  lemma LastPageDone(c: seq<Outcome>, s: State)
    requires Data(c, s)
    requires s.cursor.Some? && Seen(s) == |s.cursor.value.rows| && IsLast(c, PageIndex(s))
    ensures s.visited == Flat(c)
    ensures !EmptyLaterPage(c)
  {
  }

  /** What a fetch thread leaves alone. */
  lemma WorkFrame(c: seq<Outcome>, s: State, wake: Wake)
    requires |s.threads| == 1 && WorkStep(c, s, 0, wake).Some?
    ensures var t := WorkStep(c, s, 0, wake).value;
      && t == s.(threads := t.threads, queue := t.queue, asked := t.asked, main := t.main)
      && t.asked == s.asked + (if s.threads[0].Asking? then [s.token] else [])
      && |t.threads| == 1 && !t.threads[0].Asking?
      && (t.main == s.main || (s.main.SwitchSleep? && t.main.SwitchLock?))
  {
    hide Answer, MutexFree;
    if s.threads[0].Pushing? && s.queue == [] {
      NotifyFrame(SetWorker(s, 0, Releasing).(queue := [s.threads[0].got]), wake);
    }
  }

  lemma NotifyFrame(s: State, wake: Wake)
    requires s.threads == [Releasing] && MayWake(s, wake)
    ensures Notify(s, wake) == s.(main := if s.main.SwitchSleep? then SwitchLock else s.main)
  {
  }

  lemma WorkData(c: seq<Outcome>, s: State, i: nat, wake: Wake)
    requires Shape(c, s) && Data(c, s) && WorkStep(c, s, i, wake).Some?
    ensures Data(c, WorkStep(c, s, i, wake).value)
  {
    hide OnSpine, RowsBefore, Flat, FirstPage, InFlight, WorkStep, Supplied, IsPage, Settled, Waiting, Taken, Switched, Started;
    ThreadExists(c, s, i, wake);
    var t := WorkStep(c, s, 0, wake).value;
    WorkFrame(c, s, wake);
    SameRows(c, s, t);
  }

  lemma ThreadExists(c: seq<Outcome>, s: State, i: nat, wake: Wake)
    requires WorkStep(c, s, i, wake).Some?
    ensures i < |s.threads|
  {
  }

  lemma FirstAnswerData(c: seq<Outcome>, s: State)
    requires IsChain(c) && Data(c, s) && s.main.Executing? && s.executed && s.cursor.None? && !s.hasAsync && Quiet(s)
    ensures Data(c, ExecuteStep(c, s).value)
  {
    hide OnSpine, Data, RowsBefore, FirstPage, Flat, Iota, IsChain;
    TokenInChain(c, s);
    if c[s.token].Page? && c[s.token].rows != [] {
      FirstRowsData(c, s);
    } else {
      NoRowsData(c, s);
    }
  }

  lemma TokenInChain(c: seq<Outcome>, s: State)
    requires Data(c, s)
    ensures s.token < |c|
  {
  }

  lemma FirstRowsData(c: seq<Outcome>, s: State)
    requires IsChain(c) && Data(c, s) && s.main.Executing? && s.executed && s.cursor.None? && !s.hasAsync && Quiet(s)
    requires c[s.token].Page? && c[s.token].rows != []
    ensures Data(c, ExecuteStep(c, s).value)
  {
    hide OnSpine;
    FirstPageOnSpine(c, s.token);
  }

  lemma NoRowsData(c: seq<Outcome>, s: State)
    requires IsChain(c) && Data(c, s) && s.main.Executing? && s.executed && s.cursor.None? && !s.hasAsync && Quiet(s)
    requires c[s.token].Failure? || c[s.token].rows == []
    ensures Data(c, ExecuteStep(c, s).value)
  {
    hide Data, OnSpine, RowsBefore, FirstPage, Flat, Iota, IsChain, ExecuteStep;
    TokenInChain(c, s);
    if c[s.token].Failure? || c[s.token].next.None? {
      NothingData(c, s);
    } else {
      SkippedData(c, s);
    }
  }

  lemma NothingData(c: seq<Outcome>, s: State)
    requires IsChain(c) && Data(c, s) && s.main.Executing? && s.executed && s.cursor.None? && !s.hasAsync && Quiet(s)
    requires c[s.token].Failure? || (c[s.token].rows == [] && c[s.token].next.None?)
    ensures Data(c, ExecuteStep(c, s).value)
  {
    hide OnSpine, RowsBefore;
  }

  lemma SkippedData(c: seq<Outcome>, s: State)
    requires IsChain(c) && Data(c, s) && s.main.Executing? && s.executed && s.cursor.None? && !s.hasAsync && Quiet(s)
    requires c[s.token].Page? && c[s.token].rows == [] && c[s.token].next.Some?
    ensures Data(c, ExecuteStep(c, s).value)
  {
    hide OnSpine, Flat;
  }

  lemma ExecuteData(c: seq<Outcome>, s: State)
    requires Inv(c, s) && InExecute(s.main) && ExecuteStep(c, s).Some?
    ensures Data(c, ExecuteStep(c, s).value)
  {
    hide OnSpine, RowsBefore, Flat, FirstPage, Iota, InFlight;
    if s.main.Executing? {
      FirstAnswerData(c, s);
    } else {
      SameRows(c, s, ExecuteStep(c, s).value);
    }
  }

  lemma FetchData(c: seq<Outcome>, s: State, readable: bool)
    requires Inv(c, s) && InFetch(s.main) && FetchStep(s, readable).Some?
    ensures Data(c, FetchStep(s, readable).value)
  {
    hide OnSpine, RowsBefore, Flat, FirstPage, Iota, InFlight, IsChain;
    var t := FetchStep(s, readable).value;
    if s.main.Reading? {
      OneMoreRow(c, s, t);
    } else {
      SameRows(c, s, t);
    }
  }

  lemma CloseData(c: seq<Outcome>, s: State)
    requires Inv(c, s) && InClose(s.main) && CloseStep(s).Some?
    ensures Data(c, CloseStep(s).value)
  {
    hide Shape, Data, IsChain, CloseStep;
    if s.main.CloseReset? && s.cursor.Some? {
      PrefixOfFlat(c, s);
      ResetData(c, s);
    } else {
      KeptData(c, s);
    }
  }

  lemma ResetData(c: seq<Outcome>, s: State)
    requires Inv(c, s) && s.main.CloseReset? && s.cursor.Some? && s.visited <= Flat(c)
    ensures Data(c, CloseStep(s).value)
  {
    hide OnSpine, RowsBefore, FirstPage, Flat, Iota, InFlight, IsChain;
  }

  lemma KeptData(c: seq<Outcome>, s: State)
    requires Inv(c, s) && InClose(s.main) && CloseStep(s).Some? && !(s.main.CloseReset? && s.cursor.Some?)
    ensures Data(c, CloseStep(s).value)
  {
    hide OnSpine, RowsBefore, FirstPage, Flat, Iota, InFlight, IsChain;
    SameRows(c, s, CloseStep(s).value);
  }

  lemma PrefixOfFlat(c: seq<Outcome>, s: State)
    requires Data(c, s)
    ensures s.visited <= Flat(c)
  {
    if s.cursor.Some? {
      var k := PageIndex(s);
      assert Flat(c) == RowsBefore(c, k) + Tail(c, k);
    }
  }

  lemma HandleData(c: seq<Outcome>, s: State)
    requires Inv(c, s) && s.main.SwitchHandle?
    ensures Data(c, SwitchStep(s).value)
  {
    hide OnSpine, RowsBefore, Flat, FirstPage, Iota, InFlight;
    var t := SwitchStep(s).value;
    if t.main.Idle? {
      NoMorePages(c, s);
      if t.cursor.Some? { SameRows(c, s, t); }
    } else {
      NextPage(c, s, t);
    }
  }

  lemma SamePageData(c: seq<Outcome>, s: State)
    requires Data(c, s) && SwitchStep(s).Some? && !s.main.SwitchHandle?
    requires s.executed && s.hasAsync && s.cursor.Some? && |s.threads| <= 1
    requires s.main.SwitchToken? ==> s.threads == [] && HasNext(c, s.token) && s.result == Some(c[s.token])
    requires s.main.SwitchSpawn? ==> s.threads == [] && s.cursor.value.pos == 1
    ensures Data(c, SwitchStep(s).value)
  {
    hide OnSpine, RowsBefore, Flat, FirstPage, Iota, MutexFree;
    SameRows(c, s, SwitchStep(s).value);
  }

  lemma SwitchData(c: seq<Outcome>, s: State)
    requires Inv(c, s) && SwitchStep(s).Some?
    ensures Data(c, SwitchStep(s).value)
  {
    hide OnSpine, RowsBefore, Flat, FirstPage, Iota, InFlight, IsChain, Seen;
    if s.main.SwitchHandle? {
      HandleData(c, s);
    } else {
      SamePageData(c, s);
    }
  }

  lemma CallKeeps(c: seq<Outcome>, s: State, step: Step)
    requires Inv(c, s) && (step.CallExecute? || step.CallFetch? || step.CallClose?) && Next(c, s, step).Some?
    ensures Inv(c, Next(c, s, step).value)
  {
    hide OnSpine, Flat, IsChain, InFlight;
  }

  lemma WakeKeeps(c: seq<Outcome>, s: State)
    requires Inv(c, s) && s.main.SwitchSleep?
    ensures Inv(c, Next(c, s, SpuriousMain).value)
  {
    hide OnSpine, Flat, IsChain, InFlight, RowsBefore;
  }

  lemma MainKeeps(c: seq<Outcome>, s: State, readable: bool)
    requires Inv(c, s) && MainStep(c, s, readable).Some?
    ensures Inv(c, MainStep(c, s, readable).value)
  {
    hide Shape, Data, ExecuteStep, FetchStep, CloseStep, SwitchStep, IsChain;
    if InExecute(s.main) {
      ExecuteShape(c, s); ExecuteData(c, s);
    } else if InFetch(s.main) {
      FetchShape(c, s, readable); FetchData(c, s, readable);
    } else if InClose(s.main) {
      CloseShape(c, s); CloseData(c, s);
    } else {
      SwitchShape(c, s); SwitchData(c, s);
    }
  }

  lemma StepKeeps(c: seq<Outcome>, s: State, step: Step)
    requires Inv(c, s) && Next(c, s, step).Some?
    ensures Inv(c, Next(c, s, step).value)
  {
    hide Data, WorkStep, MainStep, IsChain, Control;
    match step
    case Main(readable) => MainKeeps(c, s, readable);
    case Work(i, wake) => WorkShape(c, s, i, wake); WorkData(c, s, i, wake);
    case SpuriousMain => WakeKeeps(c, s);
    case SpuriousWork(i) =>
    case _ => CallKeeps(c, s, step);
  }

  lemma {:induction false} RunKeeps(c: seq<Outcome>, s: State, run: seq<Step>)
    requires Inv(c, s) && Exec(c, s, run).Some?
    ensures Inv(c, Exec(c, s, run).value)
    decreases |run|
  {
    hide Inv, Next;
    if run != [] {
      StepKeeps(c, s, run[0]);
      RunKeeps(c, Next(c, s, run[0]).value, run[1..]);
    }
  }

  lemma ReachableInv(c: seq<Outcome>, s: State)
    requires IsChain(c) && Reachable(c, s)
    ensures Inv(c, s)
  {
    hide Inv, Next;
    var run: seq<Step> :| Exec(c, Init, run) == Some(s);
    InitInv(c);
    RunKeeps(c, Init, run);
  }
}
